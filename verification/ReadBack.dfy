/** What ParseAllocResult makes of the vertex order in which the builder lists its graph. */
module ReadBack {
  import opened Options
  import opened Text
  import opened Capacity
  import opened Allocation
  import opened Jgf
  import opened GraphBuilder
  import Quantities

  // The graph's vertices as the parser sees them.
  ghost function Vertices(nodes: seq<Node>): seq<Vertex> {
    if nodes == [] then []
    else
      var last := nodes[|nodes| - 1];
      Vertices(nodes[..|nodes| - 1]) + [Vertex(last.kind, last.name, last.basename)]
  }

  // The parser's core count after the list.
  ghost function Trailing(vertices: seq<Vertex>, cores: nat): nat {
    if vertices == [] then cores
    else
      var v := vertices[0];
      Trailing(vertices[1..], if v.kind == "core" then cores + 1 else if v.kind == "node" then 0 else cores)
  }

  lemma {:induction false} ParsedSnoc(vertices: seq<Vertex>, v: Vertex, cores: nat)
    ensures Parsed(vertices + [v], cores)
         == Parsed(vertices, cores) + if v.kind == "node" then [AllocatedOf(v, Trailing(vertices, cores))] else []
    ensures Trailing(vertices + [v], cores)
         == (if v.kind == "core" then Trailing(vertices, cores) + 1 else if v.kind == "node" then 0 else Trailing(vertices, cores))
  {
    if vertices != [] {
      var first := vertices[0];
      assert (vertices + [v])[1..] == vertices[1..] + [v];
      ParsedSnoc(vertices[1..], v, if first.kind == "core" then cores + 1 else if first.kind == "node" then 0 else cores);
    }
  }

  ghost function Read(g: Graph): seq<Allocated> {
    Parsed(Vertices(g.nodes), 0)
  }

  ghost function Unread(g: Graph): nat {
    Trailing(Vertices(g.nodes), 0)
  }

  lemma ReadChild(g: Graph, p: nat, kind: string, name: string, index: nat, subpath: string, unit: string, size: int)
    ensures var h := AddChild(g, p, kind, name, index, subpath, unit, size);
      && Read(h) == Read(g) + (if kind == "node" then [Allocated(kind, name + Decimal(index), name, Unread(g))] else [])
      && Unread(h) == (if kind == "core" then Unread(g) + 1 else if kind == "node" then 0 else Unread(g))
  {
    var h := AddChild(g, p, kind, name, index, subpath, unit, size);
    assert h.nodes[..|h.nodes| - 1] == g.nodes;
    ParsedSnoc(Vertices(g.nodes), Vertex(kind, name + Decimal(index), name), 0);
  }

  lemma {:induction false} ReadResources(g: Graph, p: nat, k: Kind, subpath: string, n: nat)
    requires k.kind != "node"
    ensures var h := AddResources(g, p, k, subpath, n);
      Read(h) == Read(g) && Unread(h) == Unread(g) + if k.kind == "core" then n else 0
  {
    if n > 0 {
      ReadResources(g, p, k, subpath, n - 1);
      ReadChild(AddResources(g, p, k, subpath, n - 1), p, k.kind, k.name, n - 1,
                subpath + "/" + (k.name + Decimal(n - 1)), k.unit, k.size);
    }
  }

  lemma ReadAll(g: Graph, p: nat, subpath: string, gpus: nat, cores: nat, memory: nat)
    ensures var h := AddAll(g, p, subpath, gpus, cores, memory); Read(h) == Read(g) && Unread(h) == Unread(g) + cores
  {
    ReadResources(g, p, GPU, subpath, gpus);
    ReadResources(AddResources(g, p, GPU, subpath, gpus), p, CORE, subpath, cores);
    ReadResources(AddResources(AddResources(g, p, GPU, subpath, gpus), p, CORE, subpath, cores), p, MEMORY, subpath, memory);
  }

  lemma ReadNode(g: Graph, info: NodeInfo, subnets: nat, nodeCount: nat)
    ensures var h := AddNode(g, info, subnets, nodeCount);
      Read(h) == Read(g) + [Allocated("node", info.name + Decimal(nodeCount), info.name, Unread(g))] && Unread(h) == 0
  {
    var g1 := AddChild(g, 0, "subnet", Zone(info), subnets, Zone(info) + Decimal(subnets), DEFAULT_UNIT, DEFAULT_SIZE);
    ReadChild(g, 0, "subnet", Zone(info), subnets, Zone(info) + Decimal(subnets), DEFAULT_UNIT, DEFAULT_SIZE);
    ReadChild(g1, |g.nodes|, "node", info.name, nodeCount, Subpath(info, subnets, nodeCount), DEFAULT_UNIT, DEFAULT_SIZE);
  }

  // A machine's node gets the cores that were listed before it; its own cores stay for the next one.
  lemma ReadMachine(g: Graph, info: NodeInfo, subnets: nat, nodeCount: nat)
    ensures var h := AddMachine(g, info, subnets, nodeCount);
      Read(h) == Read(g) + [Allocated("node", info.name + Decimal(nodeCount), info.name, Unread(g))] && Unread(h) == CoreCount(info)
  {
    ReadNode(g, info, subnets, nodeCount);
    ReadAll(AddNode(g, info, subnets, nodeCount), |g.nodes| + 1, Subpath(info, subnets, nodeCount),
            GpuCount(info), CoreCount(info), MemoryCount(info));
  }

  // ----- the whole graph -----

  // The cores of the last included node.
  ghost function LastCores(infos: seq<NodeInfo>, skipLabel: string): nat {
    if infos == [] then 0
    else if Included(infos[|infos| - 1], skipLabel) then CoreCount(infos[|infos| - 1])
    else LastCores(infos[..|infos| - 1], skipLabel)
  }

  // Every included node with the cores of the included node before it.
  ghost function PreviousCores(infos: seq<NodeInfo>, skipLabel: string): seq<Allocated> {
    if infos == [] then []
    else
      var front, last := infos[..|infos| - 1], infos[|infos| - 1];
      if Included(last, skipLabel)
      then PreviousCores(front, skipLabel) + [Allocated("node", last.name + Decimal(|front|), last.name, LastCores(front, skipLabel))]
      else PreviousCores(front, skipLabel)
  }

  // Every included node with its own cores.
  ghost function OwnCores(infos: seq<NodeInfo>, skipLabel: string): seq<Allocated> {
    if infos == [] then []
    else
      var front, last := infos[..|infos| - 1], infos[|infos| - 1];
      if Included(last, skipLabel)
      then OwnCores(front, skipLabel) + [Allocated("node", last.name + Decimal(|front|), last.name, CoreCount(last))]
      else OwnCores(front, skipLabel)
  }

  lemma {:induction false} BuiltReads(infos: seq<NodeInfo>, skipLabel: string)
    ensures Read(Built(infos, skipLabel)) == PreviousCores(infos, skipLabel)
    ensures Unread(Built(infos, skipLabel)) == LastCores(infos, skipLabel)
  {
    if infos == [] {
      var root := Root().nodes[0];
      assert Root().nodes[..0] == [] && Vertices([]) == [];
      assert Vertices(Root().nodes) == [] + [Vertex("cluster", root.name, root.basename)];
      ParsedSnoc([], Vertex("cluster", root.name, root.basename), 0);
    } else {
      var front, last := infos[..|infos| - 1], infos[|infos| - 1];
      BuiltReads(front, skipLabel);
      if Included(last, skipLabel) {
        ReadMachine(Built(front, skipLabel), last, SubnetCount(front, skipLabel), |front|);
      }
    }
  }

  ghost predicate NoCores(infos: seq<NodeInfo>, skipLabel: string) {
    forall i :: 0 <= i < |infos| && Included(infos[i], skipLabel) ==> CoreCount(infos[i]) == 0
  }

  lemma NoCoresSnoc(infos: seq<NodeInfo>, skipLabel: string)
    requires infos != []
    ensures var front, last := infos[..|infos| - 1], infos[|infos| - 1];
      NoCores(infos, skipLabel) <==> NoCores(front, skipLabel) && (Included(last, skipLabel) ==> CoreCount(last) == 0)
  {
    var front := infos[..|infos| - 1];
    if NoCores(infos, skipLabel) {
      forall i | 0 <= i < |front| && Included(front[i], skipLabel) ensures CoreCount(front[i]) == 0 {
        assert front[i] == infos[i];
      }
    }
  }

  lemma {:induction false} PreviousIsOwn(infos: seq<NodeInfo>, skipLabel: string)
    ensures |PreviousCores(infos, skipLabel)| == |OwnCores(infos, skipLabel)|
    ensures PreviousCores(infos, skipLabel) == OwnCores(infos, skipLabel) <==> NoCores(infos, skipLabel)
    ensures NoCores(infos, skipLabel) ==> LastCores(infos, skipLabel) == 0
  {
    if infos != [] {
      var front, last := infos[..|infos| - 1], infos[|infos| - 1];
      PreviousIsOwn(front, skipLabel);
      NoCoresSnoc(infos, skipLabel);
      if Included(last, skipLabel) {
        var name := last.name + Decimal(|front|);
        SameSnoc(PreviousCores(front, skipLabel), Allocated("node", name, last.name, LastCores(front, skipLabel)),
                 OwnCores(front, skipLabel), Allocated("node", name, last.name, CoreCount(last)));
      }
    }
  }

  lemma SameSnoc(a: seq<Allocated>, x: Allocated, b: seq<Allocated>, y: Allocated)
    requires |a| == |b|
    ensures a + [x] == b + [y] <==> a == b && x == y
  {
    if a + [x] == b + [y] {
      assert a == (a + [x])[..|a|] == (b + [y])[..|b|] == b;
      assert x == (a + [x])[|a|] && y == (b + [y])[|b|];
    }
  }

  // Parsing the builder's own list gives each node the cores of the node before it, so it is right
  // exactly when no included node has a core.
  lemma ReadBackIff(infos: seq<NodeInfo>, skipLabel: string)
    ensures Parsed(Vertices(Built(infos, skipLabel).nodes), 0) == PreviousCores(infos, skipLabel)
    ensures Parsed(Vertices(Built(infos, skipLabel).nodes), 0) == OwnCores(infos, skipLabel) <==> NoCores(infos, skipLabel)
  {
    BuiltReads(infos, skipLabel);
    PreviousIsOwn(infos, skipLabel);
  }

  lemma OneNode(info: NodeInfo)
    requires Included(info, "")
    ensures OwnCores([info], "") == [Allocated("node", info.name + "0", info.name, CoreCount(info))]
    ensures Parsed(Vertices(Built([info], "").nodes), 0) == [Allocated("node", info.name + "0", info.name, 0)]
  {
    assert Decimal(0) == "0" && [info][..0] == [];
    ReadBackIff([info], "");
  }

  lemma OneCpuNode() returns (info: NodeInfo)
    ensures info.name == "n" && Included(info, "") && CoreCount(info) == 1
  {
    info := NodeInfo("n", map[], false, 1_000_000_000, 0, None, []);
    assert Quantities.MilliValue(info.cpu) == 1000;
    assert TotalOf(info.pods, "cpu") == 0 && Quantities.MilliValue(0) == 0;
    assert FreeMilli(info) == 1000;
  }

  // A cluster of one node with one free cpu is read back without it.
  lemma OneNodeReadWrongly() returns (info: NodeInfo)
    ensures Included(info, "") && OwnCores([info], "") == [Allocated("node", info.name + "0", info.name, 1)]
    ensures Parsed(Vertices(Built([info], "").nodes), 0) == [Allocated("node", info.name + "0", info.name, 0)]
  {
    info := OneCpuNode();
    OneNode(info);
  }
}
