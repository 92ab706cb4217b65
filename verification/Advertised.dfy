/** The capacity that the built graph shows: how many vertices of each kind hang below a node. */
module Advertised {
  import opened Options
  import opened Text
  import opened Capacity
  import opened Jgf
  import opened GraphBuilder
  import opened GraphTree
  import Quantities

  ghost predicate Sized(g: Graph) {
    g.nodes != [] && |g.edges| == 2 * (|g.nodes| - 1)
  }

  // The vertices of one kind among the first m whose contains-edge comes from vertex p.
  ghost function Kids(g: Graph, p: nat, kind: string, m: nat): nat
    requires Sized(g) && m <= |g.nodes|
  {
    if m <= 1 then 0
    else Kids(g, p, kind, m - 1) + if g.edges[2 * m - 4].source == Decimal(p) && g.nodes[m - 1].kind == kind then 1 else 0
  }

  ghost function AllKids(g: Graph, p: nat, kind: string): nat
    requires Sized(g)
  {
    Kids(g, p, kind, |g.nodes|)
  }

  lemma {:induction false} KidsStay(g: Graph, h: Graph, p: nat, kind: string, m: nat)
    requires Sized(g) && Sized(h) && Grows(g, h) && m <= |g.nodes|
    ensures Kids(h, p, kind, m) == Kids(g, p, kind, m)
  {
    if m > 1 {
      KidsStay(g, h, p, kind, m - 1);
      assert h.edges[2 * m - 4] == g.edges[2 * m - 4] && h.nodes[m - 1] == g.nodes[m - 1];
    }
  }

  lemma SameId(p: nat, q: nat)
    ensures Decimal(p) == Decimal(q) <==> p == q
  {
    if Decimal(p) == Decimal(q) {
      DecimalInjective(p, q);
    }
  }

  lemma LastKid(g: Graph, q: nat, made: string, name: string, index: nat, subpath: string, unit: string, size: int)
    requires Sized(g)
    ensures var h := AddChild(g, q, made, name, index, subpath, unit, size);
      && Sized(h) && Grows(g, h) && |h.nodes| == |g.nodes| + 1
      && h.edges[|h.edges| - 2].source == Decimal(q) && h.nodes[|h.nodes| - 1].kind == made
  {
  }

  lemma KidsUnfold(h: Graph, p: nat, kind: string)
    requires Sized(h) && |h.nodes| > 1
    ensures AllKids(h, p, kind) == Kids(h, p, kind, |h.nodes| - 1)
      + if h.edges[|h.edges| - 2].source == Decimal(p) && h.nodes[|h.nodes| - 1].kind == kind then 1 else 0
  {
  }

  lemma KidsChild(g: Graph, q: nat, made: string, name: string, index: nat, subpath: string, unit: string, size: int, p: nat, kind: string)
    requires Sized(g)
    ensures var h := AddChild(g, q, made, name, index, subpath, unit, size);
      Sized(h) && Grows(g, h) && AllKids(h, p, kind) == AllKids(g, p, kind) + if p == q && made == kind then 1 else 0
  {
    var h := AddChild(g, q, made, name, index, subpath, unit, size);
    LastKid(g, q, made, name, index, subpath, unit, size);
    SameId(p, q);
    KidsStay(g, h, p, kind, |g.nodes|);
    KidsUnfold(h, p, kind);
  }

  lemma {:induction false} KidsResources(g: Graph, q: nat, k: Kind, subpath: string, n: nat, p: nat, kind: string)
    requires Sized(g)
    ensures var h := AddResources(g, q, k, subpath, n);
      Sized(h) && AllKids(h, p, kind) == AllKids(g, p, kind) + if p == q && k.kind == kind then n else 0
  {
    if n > 0 {
      KidsResources(g, q, k, subpath, n - 1, p, kind);
      KidsChild(AddResources(g, q, k, subpath, n - 1), q, k.kind, k.name, n - 1,
                subpath + "/" + (k.name + Decimal(n - 1)), k.unit, k.size, p, kind);
    }
  }

  ghost function CountOfKind(kind: string, gpus: nat, cores: nat, memory: nat): nat {
    if kind == "gpu" then gpus else if kind == "core" then cores else if kind == "memory" then memory else 0
  }

  lemma KidsAll(g: Graph, q: nat, subpath: string, gpus: nat, cores: nat, memory: nat, p: nat, kind: string)
    requires Sized(g)
    ensures var h := AddAll(g, q, subpath, gpus, cores, memory);
      Sized(h) && AllKids(h, p, kind) == AllKids(g, p, kind) + if p == q then CountOfKind(kind, gpus, cores, memory) else 0
  {
    var g1 := AddResources(g, q, GPU, subpath, gpus);
    KidsResources(g, q, GPU, subpath, gpus, p, kind);
    KidsResources(g1, q, CORE, subpath, cores, p, kind);
    KidsResources(AddResources(g1, q, CORE, subpath, cores), q, MEMORY, subpath, memory, p, kind);
  }

  lemma KidsNode(g: Graph, info: NodeInfo, subnets: nat, nodeCount: nat, p: nat, kind: string)
    requires Sized(g) && 0 < p && p != |g.nodes|
    ensures var h := AddNode(g, info, subnets, nodeCount); Sized(h) && AllKids(h, p, kind) == AllKids(g, p, kind)
  {
    var name := Zone(info) + Decimal(subnets);
    var g1 := AddChild(g, 0, "subnet", Zone(info), subnets, name, DEFAULT_UNIT, DEFAULT_SIZE);
    KidsChild(g, 0, "subnet", Zone(info), subnets, name, DEFAULT_UNIT, DEFAULT_SIZE, p, kind);
    KidsChild(g1, |g.nodes|, "node", info.name, nodeCount, Subpath(info, subnets, nodeCount), DEFAULT_UNIT, DEFAULT_SIZE, p, kind);
  }

  // A machine adds its resources below its own node, and nothing below any other one.
  lemma KidsMachine(g: Graph, info: NodeInfo, subnets: nat, nodeCount: nat, p: nat, kind: string)
    requires Sized(g) && 0 < p && p != |g.nodes|
    ensures var h := AddMachine(g, info, subnets, nodeCount);
      Sized(h) && AllKids(h, p, kind) == AllKids(g, p, kind)
        + if p == |g.nodes| + 1 then CountOfKind(kind, GpuCount(info), CoreCount(info), MemoryCount(info)) else 0
  {
    KidsNode(g, info, subnets, nodeCount, p, kind);
    KidsAll(AddNode(g, info, subnets, nodeCount), |g.nodes| + 1, Subpath(info, subnets, nodeCount),
            GpuCount(info), CoreCount(info), MemoryCount(info), p, kind);
  }

  // ----- the built graph -----

  // The vertex of the i-th cluster node, if it is included.
  ghost function VertexOfNode(infos: seq<NodeInfo>, skipLabel: string, i: nat): nat
    requires i < |infos|
  {
    |Built(infos[..i], skipLabel).nodes| + 1
  }

  lemma {:induction false} NodesStay(infos: seq<NodeInfo>, skipLabel: string, i: nat)
    requires i <= |infos|
    ensures Built(infos[..i], skipLabel).nodes <= Built(infos, skipLabel).nodes
    decreases |infos| - i
  {
    if i == |infos| {
      assert infos[..i] == infos;
    } else {
      BuiltStep(infos, skipLabel, i);
      NodesStay(infos, skipLabel, i + 1);
      if Included(infos[i], skipLabel) {
        MachineAppends(Built(infos[..i], skipLabel), infos[i], SubnetCount(infos[..i], skipLabel), i);
      }
    }
  }

  lemma {:induction false} ResourcesAppend(g: Graph, p: nat, k: Kind, subpath: string, n: nat)
    ensures g.nodes <= AddResources(g, p, k, subpath, n).nodes
  {
    if n > 0 {
      ResourcesAppend(g, p, k, subpath, n - 1);
    }
  }

  lemma MachineAppends(g: Graph, info: NodeInfo, subnets: nat, nodeCount: nat)
    ensures var nodes := AddMachine(g, info, subnets, nodeCount).nodes;
      && g.nodes <= nodes && |nodes| > |g.nodes| + 1
      && nodes[|g.nodes| + 1].kind == "node" && nodes[|g.nodes| + 1].basename == info.name
  {
    var p, s := |g.nodes| + 1, Subpath(info, subnets, nodeCount);
    var g1 := AddNode(g, info, subnets, nodeCount);
    var g2 := AddResources(g1, p, GPU, s, GpuCount(info));
    ResourcesAppend(g1, p, GPU, s, GpuCount(info));
    ResourcesAppend(g2, p, CORE, s, CoreCount(info));
    ResourcesAppend(AddResources(g2, p, CORE, s, CoreCount(info)), p, MEMORY, s, MemoryCount(info));
    assert g1.nodes[|g.nodes| + 1].kind == "node";
  }

  lemma BuiltLast(infos: seq<NodeInfo>, skipLabel: string)
    requires infos != []
    ensures var n := |infos| - 1;
      Built(infos, skipLabel) ==
        if Included(infos[n], skipLabel) then AddMachine(Built(infos[..n], skipLabel), infos[n], SubnetCount(infos[..n], skipLabel), n)
        else Built(infos[..n], skipLabel)
  {
  }

  // Nothing hangs below a vertex that is not there yet.
  lemma {:induction false} NoKidsAhead(infos: seq<NodeInfo>, skipLabel: string, p: nat, kind: string)
    requires |Built(infos, skipLabel).nodes| <= p
    ensures Sized(Built(infos, skipLabel)) && AllKids(Built(infos, skipLabel), p, kind) == 0
  {
    if infos != [] {
      var n := |infos| - 1;
      var g, subnets := Built(infos[..n], skipLabel), SubnetCount(infos[..n], skipLabel);
      BuiltLast(infos, skipLabel);
      if Included(infos[n], skipLabel) {
        MachineAppends(g, infos[n], subnets, n);
        NoKidsAhead(infos[..n], skipLabel, p, kind);
        KidsMachine(g, infos[n], subnets, n, p, kind);
      } else {
        NoKidsAhead(infos[..n], skipLabel, p, kind);
      }
    }
  }

  ghost predicate ShowsAll(g: Graph, p: nat, kind: string, info: NodeInfo) {
    && Sized(g) && p < |g.nodes|
    && AllKids(g, p, kind) == CountOfKind(kind, GpuCount(info), CoreCount(info), MemoryCount(info))
  }

  lemma NewNodeShows(g: Graph, info: NodeInfo, subnets: nat, nodeCount: nat, kind: string)
    requires Sized(g) && AllKids(g, |g.nodes| + 1, kind) == 0
    ensures ShowsAll(AddMachine(g, info, subnets, nodeCount), |g.nodes| + 1, kind, info)
  {
    KidsMachine(g, info, subnets, nodeCount, |g.nodes| + 1, kind);
    MachineAppends(g, info, subnets, nodeCount);
  }

  lemma OldNodeShows(g: Graph, info: NodeInfo, subnets: nat, nodeCount: nat, p: nat, kind: string, earlier: NodeInfo)
    requires ShowsAll(g, p, kind, earlier) && p > 0
    ensures ShowsAll(AddMachine(g, info, subnets, nodeCount), p, kind, earlier)
  {
    KidsMachine(g, info, subnets, nodeCount, p, kind);
    MachineAppends(g, info, subnets, nodeCount);
  }

  lemma SameShows(g: Graph, h: Graph, p: nat, kind: string, info: NodeInfo)
    requires ShowsAll(g, p, kind, info) && h == g
    ensures ShowsAll(h, p, kind, info)
  {
  }

  lemma AddedNodeShows(front: seq<NodeInfo>, last: NodeInfo, skipLabel: string, kind: string)
    ensures ShowsAll(AddMachine(Built(front, skipLabel), last, SubnetCount(front, skipLabel), |front|),
                     |Built(front, skipLabel).nodes| + 1, kind, last)
  {
    NoKidsAhead(front, skipLabel, |Built(front, skipLabel).nodes| + 1, kind);
    NewNodeShows(Built(front, skipLabel), last, SubnetCount(front, skipLabel), |front|, kind);
  }

  // The last node's resources are below its new vertex.
  lemma LastNodeShows(infos: seq<NodeInfo>, skipLabel: string, kind: string)
    requires infos != [] && Included(infos[|infos| - 1], skipLabel)
    ensures ShowsAll(Built(infos, skipLabel), VertexOfNode(infos, skipLabel, |infos| - 1), kind, infos[|infos| - 1])
  {
    var n := |infos| - 1;
    var front, last := infos[..n], infos[n];
    var g, subnets := Built(front, skipLabel), SubnetCount(front, skipLabel);
    AddedNodeShows(front, last, skipLabel, kind);
    BuiltLast(infos, skipLabel);
    SameShows(AddMachine(g, last, subnets, n), Built(infos, skipLabel), |g.nodes| + 1, kind, last);
  }

  // One more node changes nothing below the earlier vertices.
  lemma EarlierNodeShows(infos: seq<NodeInfo>, skipLabel: string, p: nat, kind: string, info: NodeInfo)
    requires infos != [] && p > 0 && ShowsAll(Built(infos[..|infos| - 1], skipLabel), p, kind, info)
    ensures ShowsAll(Built(infos, skipLabel), p, kind, info)
  {
    var n := |infos| - 1;
    var g, last, subnets := Built(infos[..n], skipLabel), infos[n], SubnetCount(infos[..n], skipLabel);
    BuiltLast(infos, skipLabel);
    if Included(last, skipLabel) {
      OldNodeShows(g, last, subnets, n, p, kind, info);
      SameShows(AddMachine(g, last, subnets, n), Built(infos, skipLabel), p, kind, info);
    } else {
      SameShows(g, Built(infos, skipLabel), p, kind, info);
    }
  }

  lemma SameVertex(infos: seq<NodeInfo>, skipLabel: string, i: nat)
    requires i < |infos| - 1
    ensures VertexOfNode(infos[..|infos| - 1], skipLabel, i) == VertexOfNode(infos, skipLabel, i)
  {
    assert infos[..|infos| - 1][..i] == infos[..i];
  }

  lemma {:induction false} KidsOfNode(infos: seq<NodeInfo>, skipLabel: string, i: nat, kind: string)
    requires i < |infos| && Included(infos[i], skipLabel)
    ensures ShowsAll(Built(infos, skipLabel), VertexOfNode(infos, skipLabel, i), kind, infos[i])
  {
    var n := |infos| - 1;
    if i == n {
      LastNodeShows(infos, skipLabel, kind);
    } else {
      KidsOfNode(infos[..n], skipLabel, i, kind);
      SameVertex(infos, skipLabel, i);
      EarlierNodeShows(infos, skipLabel, VertexOfNode(infos, skipLabel, i), kind, infos[i]);
    }
  }

  // So many units are free: no unit more, and not one less.
  ghost predicate Brackets(units: nat, size: nat, allocatable: nat, requested: nat) {
    units * size <= AtLeastZero(allocatable - requested) < (units + 1) * size
  }

  // In the built graph each included node has its vertex, and below it exactly as many gpus, cores and memory
  // units as it has free.
  lemma GraphShowsCapacity(infos: seq<NodeInfo>, skipLabel: string, i: nat)
    requires i < |infos| && Included(infos[i], skipLabel)
    ensures var g := Built(infos, skipLabel); var p := VertexOfNode(infos, skipLabel, i);
      && Sized(g) && HasNode(g.nodes, p, infos[i].name)
      && AllKids(g, p, "gpu") == (match infos[i].gpus case None => 0 case Some(gpus) => Quantities.Value(gpus))
      && Brackets(AllKids(g, p, "core"), 1000, Quantities.MilliValue(infos[i].cpu), Quantities.MilliValue(TotalOf(infos[i].pods, "cpu")))
      && Brackets(AllKids(g, p, "memory"), 0x4000_0000, Quantities.Value(infos[i].memory), Quantities.Value(TotalOf(infos[i].pods, "memory")))
  {
    KidsOfNode(infos, skipLabel, i, "gpu");
    KidsOfNode(infos, skipLabel, i, "core");
    KidsOfNode(infos, skipLabel, i, "memory");
    CapacitySoundAndTight(infos[i]);
    NodeIsThere(infos, skipLabel, i);
  }

  lemma StillThere(nodes: seq<Node>, more: seq<Node>, p: nat)
    requires nodes <= more && p < |nodes|
    ensures p < |more| && more[p] == nodes[p]
  {
  }

  ghost predicate HasNode(nodes: seq<Node>, p: nat, name: string) {
    p < |nodes| && nodes[p].kind == "node" && nodes[p].basename == name
  }

  lemma NewNodeIsThere(infos: seq<NodeInfo>, skipLabel: string, i: nat)
    requires i < |infos| && Included(infos[i], skipLabel)
    ensures HasNode(Built(infos[..i + 1], skipLabel).nodes, VertexOfNode(infos, skipLabel, i), infos[i].name)
  {
    BuiltStep(infos, skipLabel, i);
    MachineAppends(Built(infos[..i], skipLabel), infos[i], SubnetCount(infos[..i], skipLabel), i);
  }

  lemma NodeIsThere(infos: seq<NodeInfo>, skipLabel: string, i: nat)
    requires i < |infos| && Included(infos[i], skipLabel)
    ensures HasNode(Built(infos, skipLabel).nodes, VertexOfNode(infos, skipLabel, i), infos[i].name)
  {
    NewNodeIsThere(infos, skipLabel, i);
    NodesStay(infos, skipLabel, i + 1);
    StillThere(Built(infos[..i + 1], skipLabel).nodes, Built(infos, skipLabel).nodes, VertexOfNode(infos, skipLabel, i));
  }
}
