/** CreateInClusterJGF: one subnet, one node and its resources for every cluster node that is included. */
module GraphBuilder {
  import opened Options
  import opened GoInt
  import opened Text
  import opened Capacity
  import Quantities
  import opened Jgf

  const CONTROL_PLANE_LABEL := "node-role.kubernetes.io/control-plane"
  const ZONE_LABEL := "topology.kubernetes.io/zone"
  const CLUSTER_NAME := "k8scluster"
  const ROOT_NAME := "k8scluster0"

  // ----- the graph as a value -----

  predicate Included(info: NodeInfo, skipLabel: string) {
    && CONTROL_PLANE_LABEL !in info.labels
    && (skipLabel == "" || skipLabel !in info.labels)
    && !info.unschedulable
  }

  function Zone(info: NodeInfo): string {
    if ZONE_LABEL in info.labels then info.labels[ZONE_LABEL] else ""
  }

  // A new vertex below vertex number parent.
  function AddChild(g: Graph, parent: nat, kind: string, name: string, index: nat, subpath: string, unit: string, size: int): Graph {
    WithEdges(WithNode(g, ROOT_NAME, kind, name, index, subpath, unit, size), Decimal(parent), Decimal(|g.nodes|))
  }

  datatype Kind = Kind(kind: string, name: string, unit: string, size: int)

  const GPU := Kind("gpu", "nvidiagpu", DEFAULT_UNIT, 1)
  const CORE := Kind("core", "core", DEFAULT_UNIT, DEFAULT_SIZE)
  const MEMORY := Kind("memory", "memory", MEMORY_UNIT, 1024)

  function AddResource(g: Graph, parent: nat, k: Kind, subpath: string, index: nat): Graph {
    AddChild(g, parent, k.kind, k.name, index, subpath + "/" + (k.name + Decimal(index)), k.unit, k.size)
  }

  // n resources of one kind below a vertex, numbered from 0.
  function AddResources(g: Graph, parent: nat, k: Kind, subpath: string, n: nat): Graph {
    if n == 0 then g
    else AddResource(AddResources(g, parent, k, subpath, n - 1), parent, k, subpath, n - 1)
  }

  // The subnet, named after the zone and the subnets before it, and the node in it.
  function AddNode(g: Graph, info: NodeInfo, subnets: nat, nodeCount: nat): Graph {
    var subnetName := Zone(info) + Decimal(subnets);
    var g1 := AddChild(g, 0, "subnet", Zone(info), subnets, subnetName, DEFAULT_UNIT, DEFAULT_SIZE);
    AddChild(g1, |g.nodes|, "node", info.name, nodeCount, Subpath(info, subnets, nodeCount), DEFAULT_UNIT, DEFAULT_SIZE)
  }

  // The place of a node below the root.
  function Subpath(info: NodeInfo, subnets: nat, nodeCount: nat): string {
    Zone(info) + Decimal(subnets) + "/" + (info.name + Decimal(nodeCount))
  }

  function AddTwo(g: Graph, parent: nat, subpath: string, gpus: nat, cores: nat): Graph {
    AddResources(AddResources(g, parent, GPU, subpath, gpus), parent, CORE, subpath, cores)
  }

  function AddAll(g: Graph, parent: nat, subpath: string, gpus: nat, cores: nat, memory: nat): Graph {
    AddResources(AddTwo(g, parent, subpath, gpus, cores), parent, MEMORY, subpath, memory)
  }

  ghost function AddMachine(g: Graph, info: NodeInfo, subnets: nat, nodeCount: nat): Graph {
    AddAll(AddNode(g, info, subnets, nodeCount), |g.nodes| + 1, Subpath(info, subnets, nodeCount),
           GpuCount(info), CoreCount(info), MemoryCount(info))
  }

  function Root(): Graph {
    WithNode(Graph([], []), ROOT_NAME, "cluster", CLUSTER_NAME, 0, "", DEFAULT_UNIT, DEFAULT_SIZE)
  }

  ghost function SubnetCount(infos: seq<NodeInfo>, skipLabel: string): nat {
    if infos == [] then 0
    else SubnetCount(infos[..|infos| - 1], skipLabel) + if Included(infos[|infos| - 1], skipLabel) then 1 else 0
  }

  // A node's index counts the skipped nodes too, a subnet's index does not.
  ghost function Built(infos: seq<NodeInfo>, skipLabel: string): Graph {
    if infos == [] then Root()
    else
      var front, last := infos[..|infos| - 1], infos[|infos| - 1];
      if Included(last, skipLabel) then AddMachine(Built(front, skipLabel), last, SubnetCount(front, skipLabel), |front|)
      else Built(front, skipLabel)
  }

  // ----- the builder -----

  method AddGpu(fluxgraph: FluxJGF, parent: nat, subpath: string, index: nat)
    requires fluxgraph.Valid() && fluxgraph.rootName == ROOT_NAME
    modifies fluxgraph
    ensures fluxgraph.Valid() && fluxgraph.rootName == ROOT_NAME
    ensures fluxgraph.graph == AddResource(old(fluxgraph.graph), parent, GPU, subpath, index)
  {
    var gpuNode := fluxgraph.MakeGPU("nvidiagpu", subpath, 1, index);
    fluxgraph.MakeBidirectionalEdge(Decimal(parent), gpuNode.id);
  }

  method AddGpus(fluxgraph: FluxJGF, parent: nat, subpath: string, n: int)
    requires fluxgraph.Valid() && fluxgraph.rootName == ROOT_NAME
    modifies fluxgraph
    ensures fluxgraph.Valid() && fluxgraph.rootName == ROOT_NAME
    ensures fluxgraph.graph == AddResources(old(fluxgraph.graph), parent, GPU, subpath, AtLeastZero(n))
  {
    var index := 0;
    while index < n
      invariant 0 <= index <= AtLeastZero(n) && fluxgraph.Valid() && fluxgraph.rootName == ROOT_NAME
      invariant fluxgraph.graph == AddResources(old(fluxgraph.graph), parent, GPU, subpath, index)
    {
      AddGpu(fluxgraph, parent, subpath, index);
      index := index + 1;
    }
    assert index == AtLeastZero(n);
  }

  method AddCore(fluxgraph: FluxJGF, parent: nat, subpath: string, index: nat)
    requires fluxgraph.Valid() && fluxgraph.rootName == ROOT_NAME
    modifies fluxgraph
    ensures fluxgraph.Valid() && fluxgraph.rootName == ROOT_NAME
    ensures fluxgraph.graph == AddResource(old(fluxgraph.graph), parent, CORE, subpath, index)
  {
    var coreNode := fluxgraph.MakeCore("core", subpath, index);
    fluxgraph.MakeBidirectionalEdge(Decimal(parent), coreNode.id);
  }

  method AddCores(fluxgraph: FluxJGF, parent: nat, subpath: string, n: int)
    requires fluxgraph.Valid() && fluxgraph.rootName == ROOT_NAME
    modifies fluxgraph
    ensures fluxgraph.Valid() && fluxgraph.rootName == ROOT_NAME
    ensures fluxgraph.graph == AddResources(old(fluxgraph.graph), parent, CORE, subpath, AtLeastZero(n))
  {
    var index := 0;
    while index < n
      invariant 0 <= index <= AtLeastZero(n) && fluxgraph.Valid() && fluxgraph.rootName == ROOT_NAME
      invariant fluxgraph.graph == AddResources(old(fluxgraph.graph), parent, CORE, subpath, index)
    {
      AddCore(fluxgraph, parent, subpath, index);
      index := index + 1;
    }
    assert index == AtLeastZero(n);
  }

  method AddMemoryUnit(fluxgraph: FluxJGF, parent: nat, subpath: string, index: nat)
    requires fluxgraph.Valid() && fluxgraph.rootName == ROOT_NAME
    modifies fluxgraph
    ensures fluxgraph.Valid() && fluxgraph.rootName == ROOT_NAME
    ensures fluxgraph.graph == AddResource(old(fluxgraph.graph), parent, MEMORY, subpath, index)
  {
    var memoryNode := fluxgraph.MakeMemory("memory", subpath, 1024, index);
    fluxgraph.MakeBidirectionalEdge(Decimal(parent), memoryNode.id);
  }

  method AddMemory(fluxgraph: FluxJGF, parent: nat, subpath: string, n: int)
    requires fluxgraph.Valid() && fluxgraph.rootName == ROOT_NAME
    modifies fluxgraph
    ensures fluxgraph.Valid() && fluxgraph.rootName == ROOT_NAME
    ensures fluxgraph.graph == AddResources(old(fluxgraph.graph), parent, MEMORY, subpath, AtLeastZero(n))
  {
    var i := 0;
    while i < n
      invariant 0 <= i <= AtLeastZero(n) && fluxgraph.Valid() && fluxgraph.rootName == ROOT_NAME
      invariant fluxgraph.graph == AddResources(old(fluxgraph.graph), parent, MEMORY, subpath, i)
    {
      AddMemoryUnit(fluxgraph, parent, subpath, i);
      i := i + 1;
    }
    assert i == AtLeastZero(n);
  }

  method NewCluster() returns (fluxgraph: FluxJGF, clusterId: string)
    ensures fresh(fluxgraph) && fluxgraph.Valid() && fluxgraph.rootName == ROOT_NAME
    ensures fluxgraph.graph == Root() && clusterId == Decimal(0)
  {
    fluxgraph := new FluxJGF();
    var cluster := fluxgraph.InitCluster(CLUSTER_NAME);
    clusterId := cluster.value.id;
  }

  // A subnet of its own and the node in it.
  method AddNodeTo(fluxgraph: FluxJGF, clusterId: string, info: NodeInfo, subnets: nat, nodeCount: nat)
    returns (computeNode: Node, subpath: string)
    requires fluxgraph.Valid() && fluxgraph.rootName == ROOT_NAME && clusterId == Decimal(0)
    modifies fluxgraph
    ensures fluxgraph.Valid() && fluxgraph.rootName == ROOT_NAME
    ensures fluxgraph.graph == AddNode(old(fluxgraph.graph), info, subnets, nodeCount)
    ensures computeNode.uniqId == |old(fluxgraph.graph).nodes| + 1
    ensures subpath == Subpath(info, subnets, nodeCount)
  {
    var subnetNode := fluxgraph.MakeSubnet(Zone(info), subnets);
    fluxgraph.MakeBidirectionalEdge(clusterId, subnetNode.id);
    computeNode := fluxgraph.MakeNode(info.name, subnetNode.name, nodeCount);
    fluxgraph.MakeBidirectionalEdge(subnetNode.id, computeNode.id);
    subpath := subnetNode.name + "/" + computeNode.name;
  }

  // The body of the loop over the cluster's nodes, for one that is not skipped.
  method AddMachineTo(fluxgraph: FluxJGF, clusterId: string, info: NodeInfo, subnets: nat, nodeCount: nat) returns (availCpu: int)
    requires fluxgraph.Valid() && fluxgraph.rootName == ROOT_NAME && clusterId == Decimal(0)
    modifies fluxgraph
    ensures fluxgraph.Valid() && fluxgraph.rootName == ROOT_NAME
    ensures fluxgraph.graph == AddMachine(old(fluxgraph.graph), info, subnets, nodeCount)
    ensures availCpu == Quotient(FreeMilli(info), 1000)
  {
    var fractionMem;
    availCpu, fractionMem := Available(info);
    var computeNode, subpath := AddNodeTo(fluxgraph, clusterId, info, subnets, nodeCount);
    if info.gpus.Some? {
      AddGpus(fluxgraph, computeNode.uniqId, subpath, Quantities.Value(info.gpus.value));
    }
    AddCores(fluxgraph, computeNode.uniqId, subpath, availCpu);
    AddMemory(fluxgraph, computeNode.uniqId, subpath, fractionMem);
  }

  ghost function CpuSum(infos: seq<NodeInfo>, skipLabel: string): int {
    if infos == [] then 0
    else
      var front, last := infos[..|infos| - 1], infos[|infos| - 1];
      CpuSum(front, skipLabel) + if Included(last, skipLabel) then Quotient(FreeMilli(last), 1000) else 0
  }

  lemma BuiltStep(infos: seq<NodeInfo>, skipLabel: string, n: nat)
    requires n < |infos|
    ensures SubnetCount(infos[..n + 1], skipLabel) == SubnetCount(infos[..n], skipLabel) + if Included(infos[n], skipLabel) then 1 else 0
    ensures CpuSum(infos[..n + 1], skipLabel) ==
            CpuSum(infos[..n], skipLabel) + if Included(infos[n], skipLabel) then Quotient(FreeMilli(infos[n]), 1000) else 0
    ensures Built(infos[..n + 1], skipLabel) ==
            if Included(infos[n], skipLabel) then AddMachine(Built(infos[..n], skipLabel), infos[n], SubnetCount(infos[..n], skipLabel), n)
            else Built(infos[..n], skipLabel)
  {
    assert infos[..n + 1][..n] == infos[..n];
  }

  // The builder's state after some of the nodes.
  ghost predicate Progress(g: Graph, subnetCounter: int, totalAllocCpu: int, infos: seq<NodeInfo>, skipLabel: string) {
    && g == Built(infos, skipLabel)
    && subnetCounter == SubnetCount(infos, skipLabel)
    && totalAllocCpu == CpuSum(infos, skipLabel)
  }

  // One round of the loop.  The subnet lookup of the source is never filled, so every included node
  // makes a subnet of its own.
  method VisitNode(fluxgraph: FluxJGF, clusterId: string, infos: seq<NodeInfo>, nodeCount: nat, skipLabel: string, subnets: nat, total: int)
    returns (subnetCounter: nat, totalAllocCpu: int)
    requires fluxgraph.Valid() && fluxgraph.rootName == ROOT_NAME && clusterId == Decimal(0)
    requires nodeCount < |infos| && Progress(fluxgraph.graph, subnets, total, infos[..nodeCount], skipLabel)
    modifies fluxgraph
    ensures fluxgraph.Valid() && fluxgraph.rootName == ROOT_NAME
    ensures Progress(fluxgraph.graph, subnetCounter, totalAllocCpu, infos[..nodeCount + 1], skipLabel)
  {
    var info := infos[nodeCount];
    subnetCounter, totalAllocCpu := subnets, total;
    BuiltStep(infos, skipLabel, nodeCount);
    if Included(info, skipLabel) {
      var availCpu := AddMachineTo(fluxgraph, clusterId, info, subnets, nodeCount);
      subnetCounter := subnetCounter + 1;
      totalAllocCpu := totalAllocCpu + availCpu;
    }
  }

  method CreateInClusterJGF(infos: seq<NodeInfo>, skipLabel: string) returns (fluxgraph: FluxJGF, totalAllocCpu: int)
    ensures fresh(fluxgraph) && fluxgraph.Valid() && fluxgraph.graph == Built(infos, skipLabel)
    ensures totalAllocCpu == CpuSum(infos, skipLabel)
  {
    var clusterId;
    fluxgraph, clusterId := NewCluster();
    totalAllocCpu := 0;
    var subnetCounter := 0;
    for nodeCount := 0 to |infos|
      invariant fresh(fluxgraph) && fluxgraph.Valid() && fluxgraph.rootName == ROOT_NAME && subnetCounter >= 0
      invariant Progress(fluxgraph.graph, subnetCounter, totalAllocCpu, infos[..nodeCount], skipLabel)
    {
      subnetCounter, totalAllocCpu := VisitNode(fluxgraph, clusterId, infos, nodeCount, skipLabel, subnetCounter, totalAllocCpu);
    }
    assert infos[..|infos|] == infos;
  }
}
