/**
 Wiring a loaded model: each asset learns how many nodes are its own and which is the
 first, so the assets partition the nodes.
 */
module TemplateWiring {
  import opened EdgeTypes
  import opened TemplateLoader
  import opened TemplateValidation

  // The nodes among the first n that belong to asset a.
  function NodesOf(nodes: seq<NodeSpec>, a: nat, n: nat): nat
    requires n <= |nodes|
  {
    if n == 0 then 0 else NodesOf(nodes, a, n - 1) + (if nodes[n - 1].assetIndex == a then 1 else 0)
  }

  // The least of the first n nodes that belongs to asset a, or INVALID_INDEX if none does.
  ghost predicate FirstOf(nodes: seq<NodeSpec>, a: nat, n: nat, first: nat)
    requires n <= |nodes|
  {
    if first < n then nodes[first].assetIndex == a && forall k :: 0 <= k < first ==> nodes[k].assetIndex != a
    else first == INVALID_INDEX && forall k :: 0 <= k < n ==> nodes[k].assetIndex != a
  }

  // Asset a as the wiring of the first n nodes leaves it.
  ghost predicate Wired(asset: Asset, nodes: seq<NodeSpec>, a: nat, n: nat)
    requires n <= |nodes|
  {
    asset.nodeCount == NodesOf(nodes, a, n) && FirstOf(nodes, a, n, asset.firstNode)
  }

  ghost predicate IndexesInRange(d: Draft) {
    && (forall i :: 0 <= i < |d.nodes| ==> d.nodes[i].assetIndex < |d.assets| || d.nodes[i].assetIndex == INVALID_INDEX)
    && (forall i :: 0 <= i < |d.events| ==>
          d.events[i].sourceIndex < |d.nodes| || d.events[i].sourceIndex == INVALID_INDEX)
  }

  // Everything is resolved.
  ghost predicate NoInvalidIndex(d: Draft) {
    && (forall i :: 0 <= i < |d.nodes| ==> d.nodes[i].assetIndex != INVALID_INDEX)
    && (forall i :: 0 <= i < |d.events| ==>
          d.events[i].assetIndex != INVALID_INDEX && d.events[i].sourceIndex != INVALID_INDEX)
  }

  ghost predicate AllWired(assets: seq<Asset>, nodes: seq<NodeSpec>, n: nat)
    requires n <= |nodes|
  {
    forall a :: 0 <= a < |assets| ==> Wired(assets[a], nodes, a, n)
  }

  lemma NothingWired(assets: seq<Asset>, nodes: seq<NodeSpec>)
    requires forall a :: 0 <= a < |assets| ==> assets[a].firstNode == INVALID_INDEX && assets[a].nodeCount == 0
    ensures AllWired(assets, nodes, 0)
  {
  }

  lemma OneMoreWired(assets: seq<Asset>, nodes: seq<NodeSpec>, i: nat)
    requires i < |nodes| <= MAX_NODES && nodes[i].assetIndex < |assets|
    requires AllWired(assets, nodes, i)
    ensures var a := nodes[i].assetIndex;
      var asset := assets[a];
      var first := if asset.firstNode == INVALID_INDEX then i else asset.firstNode;
      AllWired(assets[a := asset.(firstNode := first, nodeCount := asset.nodeCount + 1)], nodes, i + 1)
  {
    assert Wired(assets[nodes[i].assetIndex], nodes, nodes[i].assetIndex, i);
  }

  method WireRuntime(m: TemplateModel) returns (status: Status)
    requires Bounded(m.State()) && IndexesInRange(m.State())
    modifies m`assets
    ensures status == if NoInvalidIndex(old(m.State())) then Ok else Invalid
    ensures |m.assets| == old(|m.assets|)
    ensures forall a :: 0 <= a < |m.assets| ==>
      m.assets[a].(firstNode := 0, nodeCount := 0) == old(m.assets)[a].(firstNode := 0, nodeCount := 0)
    ensures status == Ok ==> AllWired(m.assets, m.nodes, |m.nodes|)
  {
    hide AllWired;
    for i := 0 to |m.assets|
      invariant |m.assets| == old(|m.assets|)
      invariant forall a :: 0 <= a < |m.assets| ==>
        m.assets[a].(firstNode := 0, nodeCount := 0) == old(m.assets)[a].(firstNode := 0, nodeCount := 0)
      invariant forall a :: 0 <= a < i ==> m.assets[a].firstNode == INVALID_INDEX && m.assets[a].nodeCount == 0
    {
      m.assets := m.assets[i := m.assets[i].(firstNode := INVALID_INDEX, nodeCount := 0)];
    }
    NothingWired(m.assets, m.nodes);
    for i := 0 to |m.nodes|
      invariant |m.assets| == old(|m.assets|)
      invariant forall a :: 0 <= a < |m.assets| ==>
        m.assets[a].(firstNode := 0, nodeCount := 0) == old(m.assets)[a].(firstNode := 0, nodeCount := 0)
      invariant forall k :: 0 <= k < i ==> m.nodes[k].assetIndex != INVALID_INDEX
      invariant AllWired(m.assets, m.nodes, i)
    {
      var a := m.nodes[i].assetIndex;
      if a == INVALID_INDEX {
        return Invalid;
      }
      var asset := m.assets[a];
      var first := if asset.firstNode == INVALID_INDEX then i else asset.firstNode;
      OneMoreWired(m.assets, m.nodes, i);
      m.assets := m.assets[a := asset.(firstNode := first, nodeCount := asset.nodeCount + 1)];
    }
    for i := 0 to |m.events|
      invariant forall k :: 0 <= k < i ==>
        m.events[k].assetIndex != INVALID_INDEX && m.events[k].sourceIndex != INVALID_INDEX
    {
      if m.events[i].assetIndex == INVALID_INDEX || m.events[i].sourceIndex == INVALID_INDEX {
        return Invalid;
      }
    }
    return Ok;
  }

  // A loaded model wires: its indexes are in range and none is missing, and each event's
  // source node is a node of the event's own asset.
  lemma LoadedModelWires(d: Draft)
    requires Bounded(d) && Resolved(d)
    ensures IndexesInRange(d) && NoInvalidIndex(d)
    ensures forall i :: 0 <= i < |d.events| ==>
      d.events[i].sourceIndex < |d.nodes| && d.nodes[d.events[i].sourceIndex].assetIndex == d.events[i].assetIndex
  {
    forall i | 0 <= i < |d.nodes|
      ensures d.nodes[i].assetIndex < |d.assets|
    {
      assert NodeResolved(d.assets, d.nodes[i]);
    }
    forall i | 0 <= i < |d.events|
      ensures d.events[i].assetIndex < |d.assets| && d.events[i].sourceIndex < |d.nodes|
      ensures d.nodes[d.events[i].sourceIndex].assetIndex == d.events[i].assetIndex
    {
      assert EventResolved(d.assets, d.nodes, d.events[i]);
      SourceMatches(d, d.events[i]);
    }
  }

  function SumOfCounts(assets: seq<Asset>, n: nat): nat
    requires n <= |assets|
  {
    if n == 0 then 0 else SumOfCounts(assets, n - 1) + assets[n - 1].nodeCount
  }

  // The nodes among the first n whose asset index is below a.
  function NodesBelow(nodes: seq<NodeSpec>, a: nat, n: nat): nat
    requires n <= |nodes|
  {
    if n == 0 then 0 else NodesBelow(nodes, a, n - 1) + (if nodes[n - 1].assetIndex < a then 1 else 0)
  }

  lemma {:induction false} BelowNext(nodes: seq<NodeSpec>, a: nat, n: nat)
    requires n <= |nodes|
    ensures NodesBelow(nodes, 0, n) == 0
    ensures NodesBelow(nodes, a + 1, n) == NodesBelow(nodes, a, n) + NodesOf(nodes, a, n)
  {
    if n > 0 { BelowNext(nodes, a, n - 1); }
  }

  lemma {:induction false} AllBelow(nodes: seq<NodeSpec>, a: nat, n: nat)
    requires n <= |nodes| && forall k :: 0 <= k < n ==> nodes[k].assetIndex < a
    ensures NodesBelow(nodes, a, n) == n
  {
    if n > 0 { AllBelow(nodes, a, n - 1); }
  }

  lemma {:induction false} SumIsBelow(assets: seq<Asset>, nodes: seq<NodeSpec>, n: nat)
    requires n <= |assets| && AllWired(assets, nodes, |nodes|)
    ensures SumOfCounts(assets, n) == NodesBelow(nodes, n, |nodes|)
  {
    if n > 0 {
      SumIsBelow(assets, nodes, n - 1);
      assert Wired(assets[n - 1], nodes, n - 1, |nodes|);
    }
    BelowNext(nodes, if n > 0 then n - 1 else 0, |nodes|);
  }

  lemma {:induction false} SomeNode(nodes: seq<NodeSpec>, a: nat, n: nat)
    requires n <= |nodes|
    ensures NodesOf(nodes, a, n) == 0 <==> forall k :: 0 <= k < n ==> nodes[k].assetIndex != a
  {
    if n > 0 { SomeNode(nodes, a, n - 1); }
  }

  // The wiring is a partition: the counts add up to the number of nodes, and an asset has no
  // first node exactly when it has no node.
  lemma WiringPartitions(assets: seq<Asset>, nodes: seq<NodeSpec>)
    requires |nodes| <= MAX_NODES
    requires AllWired(assets, nodes, |nodes|)
    requires forall k :: 0 <= k < |nodes| ==> nodes[k].assetIndex < |assets|
    ensures SumOfCounts(assets, |assets|) == |nodes|
    ensures forall a :: 0 <= a < |assets| ==> (assets[a].nodeCount == 0 <==> assets[a].firstNode == INVALID_INDEX)
  {
    SumIsBelow(assets, nodes, |assets|);
    AllBelow(nodes, |assets|, |nodes|);
    forall a | 0 <= a < |assets|
      ensures assets[a].nodeCount == 0 <==> assets[a].firstNode == INVALID_INDEX
    {
      assert Wired(assets[a], nodes, a, |nodes|);
      SomeNode(nodes, a, |nodes|);
    }
  }
}
