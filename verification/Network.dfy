/**
 A weighted undirected network and the modularity of a labelling of its nodes, in exact
 arithmetic.  Nodes are positions in ascending id order.
 */
module Network {
  // `adjacency[i]` maps each neighbour of `i` to the summed weight between them; a self-loop
  // counts twice in `degree` and appears nowhere else.
  datatype Network = Network(adjacency: seq<map<nat, real>>, degree: seq<real>, total: real)

  type Labels = seq<nat>

  ghost predicate ValidNetwork(net: Network) {
    && |net.degree| == |net.adjacency|
    && net.total > 0.0
    && (forall i, j :: 0 <= i < |net.adjacency| && j in net.adjacency[i] ==> j < |net.adjacency| && j != i)
    && (forall i, j :: 0 <= i < |net.adjacency| && j in net.adjacency[i] ==>
          i in net.adjacency[j] && net.adjacency[j][i] == net.adjacency[i][j])
  }

  ghost predicate ValidLabels(net: Network, labels: Labels) {
    |labels| == |net.adjacency| && forall i :: 0 <= i < |labels| ==> labels[i] < |labels|
  }

  // The weight between two nodes.
  function Weight(net: Network, i: nat, j: nat): real
    requires i < |net.adjacency|
  {
    if j in net.adjacency[i] then net.adjacency[i][j] else 0.0
  }

  // The weight the null model expects between `p` and nodes of summed degree `d`.
  function NullModel(net: Network, resolution: real, p: nat, d: real): real
    requires p < |net.degree| && net.total > 0.0
  {
    resolution * net.degree[p] * d / (2.0 * net.total)
  }

  lemma NullModelAdds(net: Network, resolution: real, p: nat, a: real, b: real)
    requires p < |net.degree| && net.total > 0.0
    ensures NullModel(net, resolution, p, a + b) == NullModel(net, resolution, p, a) + NullModel(net, resolution, p, b)
  {
    var x := resolution * net.degree[p];
    assert x * (a + b) == x * a + x * b;
  }

  lemma NullModelOfNothing(net: Network, resolution: real, p: nat)
    requires p < |net.degree| && net.total > 0.0
    ensures NullModel(net, resolution, p, 0.0) == 0.0
  {
  }

  // How much more weight there is between two nodes than the null model expects.
  function Excess(net: Network, resolution: real, i: nat, j: nat): real
    requires i < |net.adjacency| && j < |net.degree| && i < |net.degree| && net.total > 0.0
  {
    Weight(net, i, j) - NullModel(net, resolution, i, net.degree[j])
  }

  // The excess between `i` and the first `k` nodes labelled `c`, `i` itself included.
  ghost function Row(net: Network, resolution: real, labels: Labels, i: nat, c: nat, k: nat): real
    requires ValidNetwork(net) && |labels| == |net.adjacency| && i < |labels| && k <= |labels|
  {
    if k == 0 then 0.0
    else Row(net, resolution, labels, i, c, k - 1) + if labels[k - 1] == c then Excess(net, resolution, i, k - 1) else 0.0
  }

  ghost function RowsUpto(net: Network, resolution: real, labels: Labels, k: nat): real
    requires ValidNetwork(net) && |labels| == |net.adjacency| && k <= |labels|
  {
    if k == 0 then 0.0
    else RowsUpto(net, resolution, labels, k - 1) + Row(net, resolution, labels, k - 1, labels[k - 1], |labels|)
  }

  // Modularity times twice the total weight, without the constant the self-loops contribute.
  ghost function Modularity(net: Network, resolution: real, labels: Labels): real
    requires ValidNetwork(net) && |labels| == |net.adjacency|
  {
    RowsUpto(net, resolution, labels, |labels|)
  }

  // The gain of `p` in community `c`: its excess to the members other than itself.
  ghost function GainUpto(net: Network, resolution: real, labels: Labels, p: nat, c: nat, k: nat): real
    requires ValidNetwork(net) && |labels| == |net.adjacency| && p < |labels| && k <= |labels|
  {
    if k == 0 then 0.0
    else GainUpto(net, resolution, labels, p, c, k - 1)
         + if k - 1 != p && labels[k - 1] == c then Excess(net, resolution, p, k - 1) else 0.0
  }

  ghost function Gain(net: Network, resolution: real, labels: Labels, p: nat, c: nat): real
    requires ValidNetwork(net) && |labels| == |net.adjacency| && p < |labels|
  {
    GainUpto(net, resolution, labels, p, c, |labels|)
  }

  // ----- what a move does to modularity

  lemma ExcessIsSymmetric(net: Network, resolution: real, i: nat, j: nat)
    requires ValidNetwork(net) && i < |net.adjacency| && j < |net.adjacency|
    ensures Excess(net, resolution, i, j) == Excess(net, resolution, j, i)
  {
    assert j in net.adjacency[i] <==> i in net.adjacency[j];
    assert resolution * net.degree[i] * net.degree[j] == resolution * net.degree[j] * net.degree[i];
  }

  lemma {:induction false} RowAfterMove(net: Network, resolution: real, labels: Labels, p: nat, d: nat, i: nat, c: nat, k: nat)
    requires ValidNetwork(net) && |labels| == |net.adjacency| && p < |labels| && i < |labels| && k <= |labels|
    ensures Row(net, resolution, labels[p := d], i, c, k) == Row(net, resolution, labels, i, c, k)
            + (if p < k && c == d then Excess(net, resolution, i, p) else 0.0)
            - (if p < k && c == labels[p] then Excess(net, resolution, i, p) else 0.0)
  {
    if k > 0 {
      RowAfterMove(net, resolution, labels, p, d, i, c, k - 1);
    }
  }

  lemma {:induction false} RowIsGain(net: Network, resolution: real, labels: Labels, p: nat, c: nat, k: nat)
    requires ValidNetwork(net) && |labels| == |net.adjacency| && p < |labels| && k <= |labels|
    ensures Row(net, resolution, labels, p, c, k) == GainUpto(net, resolution, labels, p, c, k)
            + if p < k && labels[p] == c then Excess(net, resolution, p, p) else 0.0
  {
    if k > 0 {
      RowIsGain(net, resolution, labels, p, c, k - 1);
    }
  }

  lemma {:induction false} RowsAfterMove(net: Network, resolution: real, labels: Labels, p: nat, d: nat, k: nat)
    requires ValidNetwork(net) && |labels| == |net.adjacency| && p < |labels| && k <= |labels| && d != labels[p]
    ensures RowsUpto(net, resolution, labels[p := d], k) - RowsUpto(net, resolution, labels, k) ==
            GainUpto(net, resolution, labels, p, d, k) - GainUpto(net, resolution, labels, p, labels[p], k)
            + if p < k then Gain(net, resolution, labels, p, d) - Gain(net, resolution, labels, p, labels[p]) else 0.0
  {
    if k > 0 {
      var i := k - 1;
      RowsAfterMove(net, resolution, labels, p, d, i);
      if i == p {
        RowAfterMove(net, resolution, labels, p, d, p, d, |labels|);
        RowIsGain(net, resolution, labels, p, d, |labels|);
        RowIsGain(net, resolution, labels, p, labels[p], |labels|);
      } else {
        RowAfterMove(net, resolution, labels, p, d, i, labels[i], |labels|);
        ExcessIsSymmetric(net, resolution, i, p);
      }
    }
  }

  // Moving a node changes modularity by twice the difference of its gains.
  lemma MoveChangesModularity(net: Network, resolution: real, labels: Labels, p: nat, d: nat)
    requires ValidNetwork(net) && |labels| == |net.adjacency| && p < |labels|
    ensures Modularity(net, resolution, labels[p := d]) ==
            Modularity(net, resolution, labels)
            + 2.0 * (Gain(net, resolution, labels, p, d) - Gain(net, resolution, labels, p, labels[p]))
  {
    if d == labels[p] {
      assert labels[p := d] == labels;
    } else {
      RowsAfterMove(net, resolution, labels, p, d, |labels|);
    }
  }

  // ----- modularity belongs to the partition, not to the names of its parts

  ghost predicate SamePartition(a: Labels, b: Labels) {
    |a| == |b| && forall i, j :: 0 <= i < |a| && 0 <= j < |a| ==> (a[i] == a[j] <==> b[i] == b[j])
  }

  lemma {:induction false} SameRows(net: Network, resolution: real, a: Labels, b: Labels, i: nat, k: nat)
    requires ValidNetwork(net) && |a| == |net.adjacency| && SamePartition(a, b) && i < |a| && k <= |a|
    ensures Row(net, resolution, a, i, a[i], k) == Row(net, resolution, b, i, b[i], k)
  {
    if k > 0 {
      SameRows(net, resolution, a, b, i, k - 1);
    }
  }

  lemma {:induction false} SamePartitionSameRows(net: Network, resolution: real, a: Labels, b: Labels, k: nat)
    requires ValidNetwork(net) && |a| == |net.adjacency| && SamePartition(a, b) && k <= |a|
    ensures RowsUpto(net, resolution, a, k) == RowsUpto(net, resolution, b, k)
  {
    if k > 0 {
      SamePartitionSameRows(net, resolution, a, b, k - 1);
      SameRows(net, resolution, a, b, k - 1, |a|);
    }
  }
}
