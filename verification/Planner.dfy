/** Layer and head partition across the nodes of a cluster. */
module Planner {
  import Arith
  import opened Wrappers

  datatype Mode = Tensor | Pipeline

  /** A registered node; `kinds` are the kinds of the devices it advertises. */
  datatype NodeSpec = NodeSpec(nodeId: string, host: string, port: int, kinds: seq<string>, modelHash: string)

  datatype ParallelPlan = ParallelPlan(mode: Mode, worldSize: nat, rank: nat, ppLayers: seq<(int, int)>,
                                       tpSlices: seq<(int, int)>)

  datatype ClusterPlan = ClusterPlan(mode: Mode, nodes: seq<NodeSpec>, perNode: seq<ParallelPlan>)

  function Min(a: int, b: int): int { if a < b then a else b }

  /** The first layer of rank i when `layers` layers are split over n ranks. */
  function Start(layers: nat, n: nat, i: nat): nat
    requires 0 < n
  {
    i * (layers / n) + Min(i, layers % n)
  }

  function PipelinePlan(nodes: seq<NodeSpec>, layers: nat): (plan: ClusterPlan)
    requires nodes != []
    ensures plan.nodes == nodes && |plan.perNode| == |nodes|
  {
    var n := |nodes|;
    ClusterPlan(Pipeline, nodes, seq(n, (i: nat) requires i < n =>
      ParallelPlan(Pipeline, n, i, [(Start(layers, n, i), Start(layers, n, i + 1))], [])))
  }

  /** None is the ValueError raised when the heads do not divide evenly. */
  function TensorPlan(nodes: seq<NodeSpec>, heads: nat): (plan: Option<ClusterPlan>)
    requires nodes != []
    ensures plan.Some? <==> heads % |nodes| == 0
    ensures plan.Some? ==> plan.value.nodes == nodes
  {
    var n := |nodes|;
    if heads % n != 0 then None else
      var per := heads / n;
      Some(ClusterPlan(Tensor, nodes, seq(n, (i: nat) requires i < n =>
        ParallelPlan(Tensor, n, i, [], [(i * per, (i + 1) * per)]))))
  }

  /** Every node advertises the same multiset of device kinds. */
  predicate SameKinds(nodes: seq<NodeSpec>) {
    forall i, j :: 0 <= i < |nodes| && 0 <= j < |nodes| ==> multiset(nodes[i].kinds) == multiset(nodes[j].kinds)
  }

  /** The heuristic never takes the branch that raises. */
  function Automatic(nodes: seq<NodeSpec>, layers: nat, heads: nat): (plan: Option<ClusterPlan>)
    requires nodes != []
    ensures plan.Some? && plan.value.nodes == nodes
    ensures plan.value.mode.Tensor? <==>
              (forall i, j :: 0 <= i < |nodes| && 0 <= j < |nodes| ==>
                multiset(nodes[i].kinds) == multiset(nodes[j].kinds)) && heads % |nodes| == 0
  {
    if SameKinds(nodes) && heads % |nodes| == 0 then TensorPlan(nodes, heads) else Some(PipelinePlan(nodes, layers))
  }

  method PlanPipeline(nodes: seq<NodeSpec>, layers: nat) returns (plan: ClusterPlan)
    requires nodes != []
    ensures plan == PipelinePlan(nodes, layers)
  {
    var n := |nodes|;
    var per, remainder := layers / n, layers % n;
    var perNode: seq<ParallelPlan> := [];
    var start := 0;
    for i := 0 to n
      invariant start == Start(layers, n, i)
      invariant perNode == PipelinePlan(nodes, layers).perNode[..i]
    {
      var count := per + if i < remainder then 1 else 0;
      StartStep(layers, n, i);
      perNode := perNode + [ParallelPlan(Pipeline, n, i, [(start, start + count)], [])];
      start := start + count;
    }
    plan := ClusterPlan(Pipeline, nodes, perNode);
  }

  method PlanTensor(nodes: seq<NodeSpec>, heads: nat) returns (plan: Option<ClusterPlan>)
    requires nodes != []
    ensures plan == TensorPlan(nodes, heads)
  {
    var n := |nodes|;
    if heads % n != 0 {
      return None;
    }
    var headsPer := heads / n;
    var perNode: seq<ParallelPlan> := [];
    for i := 0 to n
      invariant perNode == TensorPlan(nodes, heads).value.perNode[..i]
    {
      perNode := perNode + [ParallelPlan(Tensor, n, i, [], [(i * headsPer, (i + 1) * headsPer)])];
    }
    assert perNode == TensorPlan(nodes, heads).value.perNode;
    plan := Some(ClusterPlan(Tensor, nodes, perNode));
  }

  // ---------------------------------------------------------------- the layer partition

  lemma StartStep(layers: nat, n: nat, i: nat)
    requires 0 < n
    ensures Start(layers, n, i + 1) == Start(layers, n, i) + layers / n + (if i < layers % n then 1 else 0)
  {
    assert (i + 1) * (layers / n) == i * (layers / n) + layers / n;
  }

  lemma {:induction false} StartMonotone(layers: nat, n: nat, i: nat, j: nat)
    requires 0 < n && i <= j
    ensures Start(layers, n, i) <= Start(layers, n, j)
    decreases j - i
  {
    if i < j {
      StartStep(layers, n, i);
      StartMonotone(layers, n, i + 1, j);
    }
  }

  /** The number of layers rank i runs. */
  function Size(layers: nat, n: nat, i: nat): (size: int)
    requires 0 < n
    ensures size == layers / n + if i < layers % n then 1 else 0
  {
    StartStep(layers, n, i);
    Start(layers, n, i + 1) - Start(layers, n, i)
  }

  /** Adjacent, covering [0, layers), sizes differing by at most one, longer slices first. */
  lemma SlicesCover(layers: nat, n: nat)
    requires 0 < n
    ensures Start(layers, n, 0) == 0 && Start(layers, n, n) == layers
    ensures forall i: nat, j: nat :: i <= j ==> 0 <= Size(layers, n, i) - Size(layers, n, j) <= 1
  {
    Arith.Euclid(layers, n);
  }

  ghost predicate Owns(layers: nat, n: nat, rank: nat, layer: nat)
    requires 0 < n
  {
    Start(layers, n, rank) <= layer < Start(layers, n, rank + 1)
  }

  lemma {:induction false} OwnerBelow(layers: nat, n: nat, layer: nat, hi: nat) returns (rank: nat)
    requires 0 < n && layer < Start(layers, n, hi)
    ensures rank < hi && Owns(layers, n, rank, layer)
  {
    assert Start(layers, n, 0) == 0;
    if Start(layers, n, hi - 1) <= layer {
      rank := hi - 1;
    } else {
      rank := OwnerBelow(layers, n, layer, hi - 1);
    }
  }

  /** Every layer is run by exactly one rank. */
  lemma EveryLayerHasOneOwner(layers: nat, n: nat, layer: nat) returns (rank: nat)
    requires 0 < n && layer < layers
    ensures rank < n && Owns(layers, n, rank, layer)
    ensures forall other: nat :: Owns(layers, n, other, layer) ==> other == rank
  {
    SlicesCover(layers, n);
    rank := OwnerBelow(layers, n, layer, n);
    forall other: nat | Owns(layers, n, other, layer) ensures other == rank {
      if other < rank {
        StartMonotone(layers, n, other + 1, rank);
      } else if rank < other {
        StartMonotone(layers, n, rank + 1, other);
      }
    }
  }

  /** The last rank is the only one whose slice ends at the top layer, and so the only
      one that applies the LM head, exactly when there are no more ranks than layers. */
  lemma OneRankEndsTheStack(layers: nat, n: nat)
    requires 0 < n && 0 < layers
    ensures (forall i: nat :: 0 < i < n ==> Start(layers, n, i) < layers) <==> n <= layers
  {
    SlicesCover(layers, n);
    if n <= layers {
      Arith.Euclid(layers, n);
      assert layers / n >= 1;
      forall i: nat | 0 < i < n ensures Start(layers, n, i) < layers {
        StartMonotone(layers, n, i, n - 1);
        StartStep(layers, n, n - 1);
      }
    } else {
      Arith.QuotientUnique(layers, n, 0, layers);
      assert Start(layers, n, layers) == layers;
    }
  }

  /** The head slice a tensor plan gives to a rank. */
  function HeadSlice(nodes: seq<NodeSpec>, heads: nat, rank: nat): (int, int)
    requires rank < |nodes| && heads % |nodes| == 0
  {
    TensorPlan(nodes, heads).value.perNode[rank].tpSlices[0]
  }

  lemma SharesAreDisjoint(per: nat, i: nat, j: nat, head: nat)
    requires i * per <= head < (i + 1) * per && j * per <= head < (j + 1) * per
    ensures i == j
  {
    if i < j {
      Arith.Scale(i + 1, j, per);
    } else if j < i {
      Arith.Scale(j + 1, i, per);
    }
  }

  lemma ShareOf(heads: nat, n: nat, head: nat) returns (rank: nat)
    requires 0 < n && heads % n == 0 && head < heads
    ensures rank < n && rank * (heads / n) <= head < (rank + 1) * (heads / n)
  {
    var per := heads / n;
    Arith.Euclid(heads, n);
    assert per != 0;
    Arith.Euclid(head, per);
    rank := head / per;
    if n <= rank {
      Arith.Scale(n, rank, per);
    }
    assert (rank + 1) * per == rank * per + per;
  }

  /** Tensor slices are equally wide and every head belongs to exactly one rank. */
  lemma HeadsPartition(nodes: seq<NodeSpec>, heads: nat, head: nat) returns (rank: nat)
    requires nodes != [] && heads % |nodes| == 0 && head < heads
    ensures rank < |nodes| && HeadSlice(nodes, heads, rank).0 <= head < HeadSlice(nodes, heads, rank).1
    ensures forall other: nat :: other < |nodes| ==>
              var s := HeadSlice(nodes, heads, other);
              s.1 - s.0 == heads / |nodes| && (s.0 <= head < s.1 ==> other == rank)
  {
    rank := ShareOf(heads, |nodes|, head);
    var per := heads / |nodes|;
    forall other: nat | other < |nodes|
      ensures var s := HeadSlice(nodes, heads, other); s.1 - s.0 == per && (s.0 <= head < s.1 ==> other == rank)
    {
      assert (other + 1) * per == other * per + per;
      if other * per <= head < (other + 1) * per {
        SharesAreDisjoint(per, other, rank, head);
      }
    }
  }

  // ---------------------------------------------------------------- what any plan assigns

  predicate RunsLayer(plan: ClusterPlan, i: int, layer: int) {
    0 <= i < |plan.perNode| && |plan.perNode[i].ppLayers| == 1 &&
    plan.perNode[i].ppLayers[0].0 <= layer < plan.perNode[i].ppLayers[0].1
  }

  predicate ComputesHead(plan: ClusterPlan, i: int, head: int) {
    0 <= i < |plan.perNode| && |plan.perNode[i].tpSlices| == 1 &&
    plan.perNode[i].tpSlices[0].0 <= head < plan.perNode[i].tpSlices[0].1
  }

  /** Rank i of as many ranks as nodes, all in the plan's mode. */
  ghost predicate RanksInOrder(plan: ClusterPlan) {
    |plan.perNode| == |plan.nodes| &&
    forall i :: 0 <= i < |plan.perNode| ==>
      plan.perNode[i].rank == i && plan.perNode[i].worldSize == |plan.nodes| && plan.perNode[i].mode == plan.mode
  }

  ghost predicate OnlyRunner(plan: ClusterPlan, i: int, layer: int) {
    RunsLayer(plan, i, layer) && forall k :: RunsLayer(plan, k, layer) ==> k == i
  }

  ghost predicate OnlyComputer(plan: ClusterPlan, i: int, head: int) {
    ComputesHead(plan, i, head) && forall k :: ComputesHead(plan, k, head) ==> k == i
  }

  ghost predicate RunOnce(plan: ClusterPlan, layer: int) {
    exists i :: OnlyRunner(plan, i, layer)
  }

  ghost predicate ComputedOnce(plan: ClusterPlan, head: int) {
    exists i :: OnlyComputer(plan, i, head)
  }

  /** Every layer, and no other, is given to exactly one rank, and the ranks' slices are adjacent. */
  ghost predicate LayersAssigned(plan: ClusterPlan, layers: nat) {
    (forall i :: 0 <= i < |plan.perNode| ==> |plan.perNode[i].ppLayers| == 1 && plan.perNode[i].tpSlices == []) &&
    (forall i :: 0 <= i < |plan.perNode| - 1 ==> plan.perNode[i].ppLayers[0].1 == plan.perNode[i + 1].ppLayers[0].0) &&
    (forall layer :: 0 <= layer < layers ==> RunOnce(plan, layer)) &&
    forall i, layer :: RunsLayer(plan, i, layer) ==> 0 <= layer < layers
  }

  /** Every head, and no other, is given to exactly one rank. */
  ghost predicate HeadsAssigned(plan: ClusterPlan, heads: nat) {
    (forall i :: 0 <= i < |plan.perNode| ==> |plan.perNode[i].tpSlices| == 1 && plan.perNode[i].ppLayers == []) &&
    (forall head :: 0 <= head < heads ==> ComputedOnce(plan, head)) &&
    forall i, head :: ComputesHead(plan, i, head) ==> 0 <= head < heads
  }

  ghost predicate AssignsAll(plan: ClusterPlan, layers: nat, heads: nat) {
    RanksInOrder(plan) && if plan.mode.Pipeline? then LayersAssigned(plan, layers) else HeadsAssigned(plan, heads)
  }

  lemma OneRunner(nodes: seq<NodeSpec>, layers: nat, layer: nat) returns (rank: nat)
    requires nodes != [] && layer < layers
    ensures OnlyRunner(PipelinePlan(nodes, layers), rank, layer)
  {
    var plan, n := PipelinePlan(nodes, layers), |nodes|;
    rank := EveryLayerHasOneOwner(layers, n, layer);
    assert RunsLayer(plan, rank, layer);
    forall k | RunsLayer(plan, k, layer) ensures k == rank {
      assert Owns(layers, n, k, layer);
    }
  }

  lemma NoOtherLayer(nodes: seq<NodeSpec>, layers: nat, i: int, layer: int)
    requires nodes != [] && RunsLayer(PipelinePlan(nodes, layers), i, layer)
    ensures 0 <= layer < layers
  {
    var n := |nodes|;
    SlicesCover(layers, n);
    StartMonotone(layers, n, 0, i);
    StartMonotone(layers, n, i + 1, n);
  }

  lemma PipelineAssignsAll(nodes: seq<NodeSpec>, layers: nat, heads: nat)
    requires nodes != []
    ensures AssignsAll(PipelinePlan(nodes, layers), layers, heads)
  {
    var plan := PipelinePlan(nodes, layers);
    forall layer | 0 <= layer < layers ensures RunOnce(plan, layer) {
      var rank := OneRunner(nodes, layers, layer);
    }
    forall i, layer | RunsLayer(plan, i, layer) ensures 0 <= layer < layers {
      NoOtherLayer(nodes, layers, i, layer);
    }
  }

  lemma OneComputer(nodes: seq<NodeSpec>, heads: nat, head: nat) returns (rank: nat)
    requires nodes != [] && heads % |nodes| == 0 && head < heads
    ensures OnlyComputer(TensorPlan(nodes, heads).value, rank, head)
  {
    var plan := TensorPlan(nodes, heads).value;
    rank := HeadsPartition(nodes, heads, head);
    assert HeadSlice(nodes, heads, rank) == plan.perNode[rank].tpSlices[0];
    assert ComputesHead(plan, rank, head);
    forall k | ComputesHead(plan, k, head) ensures k == rank {
      assert HeadSlice(nodes, heads, k) == plan.perNode[k].tpSlices[0];
    }
  }

  lemma NoOtherHead(nodes: seq<NodeSpec>, heads: nat, i: int, head: int)
    requires nodes != [] && heads % |nodes| == 0 && ComputesHead(TensorPlan(nodes, heads).value, i, head)
    ensures 0 <= head < heads
  {
    var n, per := |nodes|, heads / |nodes|;
    Arith.Euclid(heads, n);
    Arith.Scale(0, i, per);
    Arith.Scale(i + 1, n, per);
  }

  lemma TensorAssignsAll(nodes: seq<NodeSpec>, layers: nat, heads: nat)
    requires nodes != [] && heads % |nodes| == 0
    ensures AssignsAll(TensorPlan(nodes, heads).value, layers, heads)
  {
    var plan := TensorPlan(nodes, heads).value;
    forall head | 0 <= head < heads ensures ComputedOnce(plan, head) {
      var rank := OneComputer(nodes, heads, head);
    }
    forall i, head | ComputesHead(plan, i, head) ensures 0 <= head < heads {
      NoOtherHead(nodes, heads, i, head);
    }
  }

  /** Whatever the heuristic chooses. */
  lemma AutomaticAssignsAll(nodes: seq<NodeSpec>, layers: nat, heads: nat)
    requires nodes != []
    ensures AssignsAll(Automatic(nodes, layers, heads).value, layers, heads)
  {
    if SameKinds(nodes) && heads % |nodes| == 0 {
      TensorAssignsAll(nodes, layers, heads);
    } else {
      PipelineAssignsAll(nodes, layers, heads);
    }
  }
}
