/** What one more cluster node adds to the built graph, vertex by vertex, and which nodes add nothing. */
module GraphContents {
  import opened Options
  import opened GoInt
  import opened Text
  import opened Capacity
  import opened Jgf
  import opened GraphBuilder
  import opened GraphTree
  import opened Advertised

  // Vertex k of the graph, but for its path.
  ghost predicate IsVertex(g: Graph, k: nat, kind: string, basename: string, index: nat, unit: string, size: int) {
    k < |g.nodes| &&
    var node := g.nodes[k];
    && node.id == Decimal(k) && node.uniqId == k && node.kind == kind && node.basename == basename
    && node.name == basename + Decimal(index) && node.index == index && node.unit == unit && node.size == size
    && node.rank == -1 && !node.exclusive
  }

  // Vertex k hangs below vertex p, by an edge in each direction.
  ghost predicate Hangs(g: Graph, k: nat, p: nat) {
    && 1 <= k && 2 * k <= |g.edges|
    && g.edges[2 * k - 2] == Edge(Decimal(p), Decimal(k), "contains") && g.edges[2 * k - 1] == Edge(Decimal(k), Decimal(p), "in")
  }

  ghost predicate IsBelow(g: Graph, k: nat, p: nat, kind: string, basename: string, index: nat, unit: string, size: int) {
    IsVertex(g, k, kind, basename, index, unit, size) && Hangs(g, k, p)
  }

  ghost predicate ResourceAt(g: Graph, from: nat, j: nat, p: nat, kind: string, basename: string, unit: string, size: int) {
    IsBelow(g, from + j, p, kind, basename, j, unit, size)
  }

  // Vertices from .. from + n of one kind, numbered from 0.
  ghost predicate AllBelow(g: Graph, from: nat, n: nat, p: nat, kind: string, basename: string, unit: string, size: int) {
    forall j: nat :: j < n ==> ResourceAt(g, from, j, p, kind, basename, unit, size)
  }

  lemma StillBelow(g: Graph, h: Graph, k: nat, p: nat, kind: string, basename: string, index: nat, unit: string, size: int)
    requires Grows(g, h) && IsBelow(g, k, p, kind, basename, index, unit, size)
    ensures IsBelow(h, k, p, kind, basename, index, unit, size)
  {
    assert h.nodes[k] == g.nodes[k];
    assert h.edges[2 * k - 2] == g.edges[2 * k - 2] && h.edges[2 * k - 1] == g.edges[2 * k - 1];
  }

  lemma AllStillBelow(g: Graph, h: Graph, from: nat, n: nat, p: nat, kind: string, basename: string, unit: string, size: int)
    requires Grows(g, h) && AllBelow(g, from, n, p, kind, basename, unit, size)
    ensures AllBelow(h, from, n, p, kind, basename, unit, size)
  {
    forall j: nat | j < n ensures ResourceAt(h, from, j, p, kind, basename, unit, size) {
      assert ResourceAt(g, from, j, p, kind, basename, unit, size);
      StillBelow(g, h, from + j, p, kind, basename, j, unit, size);
    }
  }

  lemma ChildIsBelow(g: Graph, p: nat, kind: string, name: string, index: nat, subpath: string, unit: string, size: int)
    requires Sized(g)
    ensures var h := AddChild(g, p, kind, name, index, subpath, unit, size);
      && Sized(h) && Grows(g, h) && |h.nodes| == |g.nodes| + 1
      && IsBelow(h, |g.nodes|, p, kind, name, index, unit, size)
  {
  }

  lemma {:induction false} ResourcesBelow(g: Graph, p: nat, k: Kind, subpath: string, n: nat)
    requires Sized(g)
    ensures var h := AddResources(g, p, k, subpath, n);
      && Sized(h) && Grows(g, h) && |h.nodes| == |g.nodes| + n
      && AllBelow(h, |g.nodes|, n, p, k.kind, k.name, k.unit, k.size)
  {
    if n > 0 {
      var f := AddResources(g, p, k, subpath, n - 1);
      ResourcesBelow(g, p, k, subpath, n - 1);
      ChildIsBelow(f, p, k.kind, k.name, n - 1, subpath + "/" + (k.name + Decimal(n - 1)), k.unit, k.size);
      AllStillBelow(f, AddResources(g, p, k, subpath, n), |g.nodes|, n - 1, p, k.kind, k.name, k.unit, k.size);
      assert ResourceAt(AddResources(g, p, k, subpath, n), |g.nodes|, n - 1, p, k.kind, k.name, k.unit, k.size);
    }
  }

  // From vertex first on: gpus and then cores, all below vertex p.
  ghost predicate HasUnits(h: Graph, first: nat, p: nat, gpus: nat, cores: nat) {
    && AllBelow(h, first, gpus, p, "gpu", "nvidiagpu", "", 1)
    && AllBelow(h, first + gpus, cores, p, "core", "core", "", 1)
  }

  // After these, memory units of 1024 MB each.
  ghost predicate HasResources(h: Graph, first: nat, p: nat, gpus: nat, cores: nat, memory: nat) {
    && |h.nodes| == first + gpus + cores + memory && HasUnits(h, first, p, gpus, cores)
    && AllBelow(h, first + gpus + cores, memory, p, "memory", "memory", "MB", 1024)
  }

  lemma UnitsStillBelow(g: Graph, h: Graph, first: nat, p: nat, gpus: nat, cores: nat)
    requires Grows(g, h) && HasUnits(g, first, p, gpus, cores)
    ensures HasUnits(h, first, p, gpus, cores)
  {
    AllStillBelow(g, h, first, gpus, p, "gpu", "nvidiagpu", "", 1);
    AllStillBelow(g, h, first + gpus, cores, p, "core", "core", "", 1);
  }

  lemma UnitsAreBelow(g: Graph, p: nat, subpath: string, gpus: nat, cores: nat)
    requires Sized(g)
    ensures var h := AddTwo(g, p, subpath, gpus, cores);
      Sized(h) && Grows(g, h) && |h.nodes| == |g.nodes| + gpus + cores && HasUnits(h, |g.nodes|, p, gpus, cores)
  {
    var g1 := AddResources(g, p, GPU, subpath, gpus);
    ResourcesBelow(g, p, GPU, subpath, gpus);
    ResourcesBelow(g1, p, CORE, subpath, cores);
    AllStillBelow(g1, AddTwo(g, p, subpath, gpus, cores), |g.nodes|, gpus, p, "gpu", "nvidiagpu", "", 1);
  }

  lemma GrowsOn(f: Graph, g: Graph, h: Graph)
    requires Grows(f, g) && Grows(g, h)
    ensures Grows(f, h)
  {
  }

  lemma AllAreBelow(g: Graph, p: nat, subpath: string, gpus: nat, cores: nat, memory: nat)
    requires Sized(g)
    ensures var h := AddAll(g, p, subpath, gpus, cores, memory);
      Sized(h) && Grows(g, h) && HasResources(h, |g.nodes|, p, gpus, cores, memory)
  {
    var g2, h := AddTwo(g, p, subpath, gpus, cores), AddAll(g, p, subpath, gpus, cores, memory);
    UnitsAreBelow(g, p, subpath, gpus, cores);
    ResourcesBelow(g2, p, MEMORY, subpath, memory);
    GrowsOn(g, g2, h);
    UnitsStillBelow(g2, h, |g.nodes|, p, gpus, cores);
  }

  // A subnet of its own below the root, the node below it, and the node's resources below that.
  ghost predicate HasMachine(h: Graph, m: nat, info: NodeInfo, subnets: nat, nodeCount: nat, gpus: nat, cores: nat, memory: nat) {
    var zone := if "topology.kubernetes.io/zone" in info.labels then info.labels["topology.kubernetes.io/zone"] else "";
    && IsBelow(h, m, 0, "subnet", zone, subnets, "", 1)
    && IsBelow(h, m + 1, m, "node", info.name, nodeCount, "", 1)
    && HasResources(h, m + 2, m + 1, gpus, cores, memory)
  }

  lemma MachineIsBelow(g: Graph, info: NodeInfo, subnets: nat, nodeCount: nat)
    requires Sized(g)
    ensures var h := AddMachine(g, info, subnets, nodeCount);
      Sized(h) && Grows(g, h) && HasMachine(h, |g.nodes|, info, subnets, nodeCount, GpuCount(info), CoreCount(info), MemoryCount(info))
  {
    var name := Zone(info) + Decimal(subnets);
    var g1 := AddChild(g, 0, "subnet", Zone(info), subnets, name, DEFAULT_UNIT, DEFAULT_SIZE);
    var g2, h := AddNode(g, info, subnets, nodeCount), AddMachine(g, info, subnets, nodeCount);
    ChildIsBelow(g, 0, "subnet", Zone(info), subnets, name, DEFAULT_UNIT, DEFAULT_SIZE);
    ChildIsBelow(g1, |g.nodes|, "node", info.name, nodeCount, Subpath(info, subnets, nodeCount), DEFAULT_UNIT, DEFAULT_SIZE);
    AllAreBelow(g2, |g.nodes| + 1, Subpath(info, subnets, nodeCount), GpuCount(info), CoreCount(info), MemoryCount(info));
    StillBelow(g1, h, |g.nodes|, 0, "subnet", Zone(info), subnets, "", 1);
    StillBelow(g2, h, |g.nodes| + 1, |g.nodes|, "node", info.name, nodeCount, "", 1);
  }

  lemma {:induction false} BuiltSized(infos: seq<NodeInfo>, skipLabel: string)
    ensures Sized(Built(infos, skipLabel)) && IsVertex(Built(infos, skipLabel), 0, "cluster", "k8scluster", 0, "", 1)
  {
    if infos != [] {
      var front, last := infos[..|infos| - 1], infos[|infos| - 1];
      BuiltSized(front, skipLabel);
      BuiltLast(infos, skipLabel);
      if Included(last, skipLabel) {
        MachineIsBelow(Built(front, skipLabel), last, SubnetCount(front, skipLabel), |front|);
      }
    }
  }

  // Nodes of the control plane, nodes with the skip label if there is one, and unschedulable nodes.
  predicate Skipped(info: NodeInfo, skipLabel: string) {
    || "node-role.kubernetes.io/control-plane" in info.labels
    || (skipLabel != "" && skipLabel in info.labels)
    || info.unschedulable
  }

  // One more node changes nothing exactly if it is to be skipped: no vertex, no edge, no cpu.  Any other node
  // adds its vertices, numbered by the subnets and by all nodes before it, and its free cpus to the total.
  lemma OneMoreNode(infos: seq<NodeInfo>, info: NodeInfo, skipLabel: string)
    ensures var g, h := Built(infos, skipLabel), Built(infos + [info], skipLabel);
      && (h == g <==> Skipped(info, skipLabel))
      && CpuSum(infos + [info], skipLabel) == CpuSum(infos, skipLabel)
           + (if Skipped(info, skipLabel) then 0 else Quotient(FreeMilli(info), 1000))
      && SubnetCount(infos + [info], skipLabel) == SubnetCount(infos, skipLabel) + (if Skipped(info, skipLabel) then 0 else 1)
      && (Skipped(info, skipLabel) || (Grows(g, h) && HasMachine(h, |g.nodes|, info, SubnetCount(infos, skipLabel), |infos|,
                                                                 GpuCount(info), CoreCount(info), MemoryCount(info))))
  {
    var all := infos + [info];
    assert all[..|infos|] == infos && all[|infos|] == info;
    BuiltLast(all, skipLabel);
    BuiltSized(infos, skipLabel);
    MachineIsBelow(Built(infos, skipLabel), info, SubnetCount(infos, skipLabel), |infos|);
  }

  // With no node there is only the root, and no cpu.
  lemma NoNodes(skipLabel: string)
    ensures |Built([], skipLabel).nodes| == 1 && Built([], skipLabel).edges == []
    ensures CpuSum([], skipLabel) == 0 && SubnetCount([], skipLabel) == 0
  {
  }
}
