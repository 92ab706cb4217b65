/** The built graph is one rooted tree in all its views: ids, mirrored edges and path strings. */
module GraphTree {
  import opened Text
  import opened Paths
  import opened Capacity
  import opened Jgf
  import opened GraphBuilder

  // Vertex k hangs below vertex p in the edge list and in the path strings.
  ghost predicate ChildOf(g: Graph, k: nat, p: nat) {
    && p < k < |g.nodes| && 2 * k <= |g.edges|
    && g.edges[2 * k - 2] == Edge(Decimal(p), Decimal(k), "contains")
    && g.edges[2 * k - 1] == Edge(Decimal(k), Decimal(p), "in")
    && g.nodes[k].path == g.nodes[p].path + "/" + g.nodes[k].name
  }

  ghost predicate HasParent(g: Graph, k: nat) {
    exists p: nat :: ChildOf(g, k, p)
  }

  ghost predicate Tree(g: Graph) {
    && g.nodes != [] && |g.edges| == 2 * (|g.nodes| - 1) && Numbered(g.nodes)
    && g.nodes[0].path == "/" + ROOT_NAME && ParentsBelow(g, |g.nodes|)
  }

  // Every vertex but the root, up to a number, has a parent.
  ghost predicate ParentsBelow(g: Graph, m: nat) {
    m <= 1 || (ParentsBelow(g, m - 1) && HasParent(g, m - 1))
  }

  lemma {:induction false} ParentOf(g: Graph, m: nat, k: nat) returns (p: nat)
    requires ParentsBelow(g, m) && 1 <= k < m
    ensures ChildOf(g, k, p)
  {
    if k < m - 1 {
      p := ParentOf(g, m - 1, k);
    } else {
      p :| ChildOf(g, k, p);
    }
  }

  lemma {:induction false} ParentsStay(g: Graph, h: Graph, m: nat)
    requires ParentsBelow(g, m) && Grows(g, h)
    ensures ParentsBelow(h, m)
  {
    if m > 1 {
      ParentsStay(g, h, m - 1);
      StillChild(g, h, m - 1);
    }
  }

  // ----- where each vertex is -----

  ghost predicate Grows(g: Graph, h: Graph) {
    g.nodes <= h.nodes && g.edges <= h.edges
  }

  // A vertex at the place given by the names on the way from the root.
  ghost predicate At(node: Node, names: seq<string>) {
    PlainPlace(names) && node.path == PlacePath(names)
  }

  // Names on the way from the root, none of them with a slash or meaning to a path cleaner.
  ghost predicate PlainPlace(names: seq<string>) {
    names == [] || (PlainPlace(names[..|names| - 1]) && Plain(names[|names| - 1]))
  }

  ghost function PlacePath(names: seq<string>): string {
    if names == [] then "/" + ROOT_NAME else PlacePath(names[..|names| - 1]) + "/" + names[|names| - 1]
  }

  // That is the path getNodePath makes of the joined names.
  lemma {:induction false} PlacePathIs(names: seq<string>)
    requires PlainPlace(names)
    ensures AllPlain(names) && PlacePath(names) == NodePath(ROOT_NAME, Join(names, '/'))
  {
    RootPlain();
    if names == [] {
      PathIs(ROOT_NAME, []);
      assert [ROOT_NAME] + [] == [ROOT_NAME];
    } else {
      var front, last := names[..|names| - 1], names[|names| - 1];
      PlacePathIs(front);
      ChildPath(ROOT_NAME, front, last);
      assert names == front + [last];
    }
  }

  // Every vertex is at its place.
  ghost predicate Placed(nodes: seq<Node>, all: seq<seq<string>>) {
    && |nodes| == |all|
    && (all == [] || (Placed(nodes[..|nodes| - 1], all[..|all| - 1]) && At(nodes[|nodes| - 1], all[|all| - 1])))
  }

  lemma {:induction false} PlacedAt(nodes: seq<Node>, all: seq<seq<string>>, k: nat)
    requires Placed(nodes, all) && k < |all|
    ensures At(nodes[k], all[k])
  {
    if k < |all| - 1 {
      PlacedAt(nodes[..|nodes| - 1], all[..|all| - 1], k);
    }
  }

  lemma PlacedOneMore(nodes: seq<Node>, all: seq<seq<string>>, node: Node, names: seq<string>)
    requires Placed(nodes, all) && At(node, names)
    ensures Placed(nodes + [node], all + [names])
  {
    assert (nodes + [node])[..|nodes|] == nodes && (all + [names])[..|all|] == all;
  }

  // The places after n more resources below vertex p.
  ghost function PlaceResources(all: seq<seq<string>>, p: nat, k: Kind, n: nat): (places: seq<seq<string>>)
    requires p < |all|
    ensures |places| == |all| + n && places[p] == all[p] && places[0] == all[0]
  {
    if n == 0 then all else PlaceResources(all, p, k, n - 1) + [all[p] + [k.name + Decimal(n - 1)]]
  }

  ghost function PlaceTwo(all: seq<seq<string>>, p: nat, gpus: nat, cores: nat): (places: seq<seq<string>>)
    requires p < |all|
    ensures |places| == |all| + gpus + cores && places[p] == all[p] && places[0] == all[0]
  {
    PlaceResources(PlaceResources(all, p, GPU, gpus), p, CORE, cores)
  }

  ghost function PlaceAll(all: seq<seq<string>>, p: nat, gpus: nat, cores: nat, memory: nat): (places: seq<seq<string>>)
    requires p < |all|
    ensures |places| == |all| + gpus + cores + memory && places[0] == all[0]
  {
    PlaceResources(PlaceTwo(all, p, gpus, cores), p, MEMORY, memory)
  }

  ghost function PlaceOf(info: NodeInfo, subnets: nat, nodeCount: nat): seq<string> {
    [Zone(info) + Decimal(subnets), info.name + Decimal(nodeCount)]
  }

  ghost function PlaceNode(all: seq<seq<string>>, info: NodeInfo, subnets: nat, nodeCount: nat): seq<seq<string>> {
    var place := PlaceOf(info, subnets, nodeCount);
    all + [[place[0]]] + [place]
  }

  ghost function PlaceMachine(all: seq<seq<string>>, info: NodeInfo, subnets: nat, nodeCount: nat): seq<seq<string>> {
    PlaceAll(PlaceNode(all, info, subnets, nodeCount), |all| + 1, GpuCount(info), CoreCount(info), MemoryCount(info))
  }

  ghost function PlaceOfRoot(): seq<seq<string>> {
    [[]]
  }

  // The places of all vertices, in the order of the vertex list.
  ghost function Places(infos: seq<NodeInfo>, skipLabel: string): (all: seq<seq<string>>)
    ensures all != []
  {
    if infos == [] then PlaceOfRoot()
    else
      var front, last := infos[..|infos| - 1], infos[|infos| - 1];
      if Included(last, skipLabel) then PlaceMachine(Places(front, skipLabel), last, SubnetCount(front, skipLabel), |front|)
      else Places(front, skipLabel)
  }

  // ----- the builder keeps the tree -----

  ghost predicate TreeAt(g: Graph, all: seq<seq<string>>) {
    Tree(g) && Placed(g.nodes, all)
  }

  lemma StillChild(g: Graph, h: Graph, k: nat)
    requires Grows(g, h) && HasParent(g, k)
    ensures HasParent(h, k)
  {
    var p: nat :| ChildOf(g, k, p);
    assert ChildOf(h, k, p);
  }

  lemma RootPlain()
    ensures Plain(ROOT_NAME)
  {
    assert ROOT_NAME[0] == 'k';
  }

  lemma TreeExtends(g: Graph, h: Graph, p: nat)
    requires Tree(g) && Grows(g, h) && |h.nodes| == |g.nodes| + 1 && |h.edges| == |g.edges| + 2
    requires Numbered(h.nodes) && ChildOf(h, |g.nodes|, p)
    ensures Tree(h)
  {
    ParentsStay(g, h, |g.nodes|);
    assert HasParent(h, |g.nodes|);
  }

  lemma NewPlace(names: seq<string>, name: string, index: nat)
    requires PlainPlace(names) && '/' !in name
    ensures var place, last := names + [name + Decimal(index)], name + Decimal(index);
      && PlainPlace(place) && PlacePath(place) == PlacePath(names) + "/" + last
      && NodePath(ROOT_NAME, Join(place, '/')) == PlacePath(place)
  {
    var place := names + [name + Decimal(index)];
    IndexedIsPlain(name, index);
    assert place[..|place| - 1] == names;
    PlacePathIs(place);
  }

  lemma NewEdges(g: Graph, p: nat, kind: string, name: string, index: nat, subpath: string, unit: string, size: int)
    requires p < |g.nodes| && |g.edges| == 2 * (|g.nodes| - 1)
    ensures var h, k := AddChild(g, p, kind, name, index, subpath, unit, size), |g.nodes|;
      && |h.edges| == 2 * k && h.nodes[p] == g.nodes[p]
      && h.edges[2 * k - 2] == Edge(Decimal(p), Decimal(k), "contains")
      && h.edges[2 * k - 1] == Edge(Decimal(k), Decimal(p), "in")
  {
  }

  lemma NewChild(g: Graph, p: nat, names: seq<string>, kind: string, name: string, index: nat, subpath: string, unit: string, size: int)
    requires Tree(g) && p < |g.nodes| && At(g.nodes[p], names) && '/' !in name
    requires subpath == Join(names + [name + Decimal(index)], '/')
    ensures var h := AddChild(g, p, kind, name, index, subpath, unit, size);
      ChildOf(h, |g.nodes|, p) && At(h.nodes[|g.nodes|], names + [name + Decimal(index)])
  {
    NewPlace(names, name, index);
    NewEdges(g, p, kind, name, index, subpath, unit, size);
    var h := AddChild(g, p, kind, name, index, subpath, unit, size);
    assert h.nodes[|g.nodes|].path == NodePath(ROOT_NAME, subpath) && h.nodes[|g.nodes|].name == name + Decimal(index);
  }

  lemma AddChildKeepsTree(g: Graph, all: seq<seq<string>>, p: nat, kind: string, name: string, index: nat,
                          subpath: string, unit: string, size: int)
    requires TreeAt(g, all) && p < |all| && '/' !in name
    requires subpath == Join(all[p] + [name + Decimal(index)], '/')
    ensures TreeAt(AddChild(g, p, kind, name, index, subpath, unit, size), all + [all[p] + [name + Decimal(index)]])
  {
    var node := AddChild(g, p, kind, name, index, subpath, unit, size).nodes[|g.nodes|];
    PlacedAt(g.nodes, all, p);
    NewChild(g, p, all[p], kind, name, index, subpath, unit, size);
    PlacedOneMore(g.nodes, all, node, all[p] + [name + Decimal(index)]);
    StillNumbered(g.nodes, node);
    TreeExtends(g, AddChild(g, p, kind, name, index, subpath, unit, size), p);
  }

  lemma SubpathIs(names: seq<string>, name: string)
    requires names != []
    ensures Join(names, '/') + "/" + name == Join(names + [name], '/')
  {
    JoinSnoc(names, name);
  }

  lemma AddResourceKeepsTree(g: Graph, all: seq<seq<string>>, p: nat, place: seq<string>, k: Kind, subpath: string, index: nat)
    requires TreeAt(g, all) && p < |all| && all[p] == place && place != [] && subpath == Join(place, '/') && '/' !in k.name
    ensures TreeAt(AddResource(g, p, k, subpath, index), all + [place + [k.name + Decimal(index)]])
  {
    SubpathIs(place, k.name + Decimal(index));
    AddChildKeepsTree(g, all, p, k.kind, k.name, index, subpath + "/" + (k.name + Decimal(index)), k.unit, k.size);
  }

  lemma OneMoreResource(g: Graph, all: seq<seq<string>>, p: nat, k: Kind, subpath: string, n: nat)
    requires p < |all| && n > 0
    ensures AddResources(g, p, k, subpath, n) == AddResource(AddResources(g, p, k, subpath, n - 1), p, k, subpath, n - 1)
    ensures PlaceResources(all, p, k, n) == PlaceResources(all, p, k, n - 1) + [all[p] + [k.name + Decimal(n - 1)]]
  {
  }

  // The same with the new graph and its places as parameters.
  lemma AddedKeepsTree(g: Graph, all: seq<seq<string>>, p: nat, place: seq<string>, k: Kind, subpath: string, index: nat,
                       h: Graph, places: seq<seq<string>>)
    requires TreeAt(g, all) && p < |all| && all[p] == place && place != [] && subpath == Join(place, '/') && '/' !in k.name
    requires h == AddResource(g, p, k, subpath, index) && places == all + [place + [k.name + Decimal(index)]]
    ensures TreeAt(h, places)
  {
    AddResourceKeepsTree(g, all, p, place, k, subpath, index);
  }

  lemma SameTree(g: Graph, all: seq<seq<string>>, h: Graph, places: seq<seq<string>>)
    requires TreeAt(g, all) && h == g && places == all
    ensures TreeAt(h, places)
  {
  }

  lemma {:induction false} AddResourcesKeepsTree(g: Graph, all: seq<seq<string>>, p: nat, place: seq<string>,
                                                 k: Kind, subpath: string, n: nat)
    requires TreeAt(g, all) && p < |all| && all[p] == place && place != [] && subpath == Join(place, '/') && '/' !in k.name
    ensures TreeAt(AddResources(g, p, k, subpath, n), PlaceResources(all, p, k, n))
  {
    if n == 0 {
      SameTree(g, all, AddResources(g, p, k, subpath, 0), PlaceResources(all, p, k, 0));
    } else {
      AddResourcesKeepsTree(g, all, p, place, k, subpath, n - 1);
      OneMoreResource(g, all, p, k, subpath, n);
      AddedKeepsTree(AddResources(g, p, k, subpath, n - 1), PlaceResources(all, p, k, n - 1), p, place, k, subpath, n - 1,
                     AddResources(g, p, k, subpath, n), PlaceResources(all, p, k, n));
    }
  }

  lemma AddTwoKeepsTree(g: Graph, all: seq<seq<string>>, p: nat, place: seq<string>, subpath: string, gpus: nat, cores: nat)
    requires TreeAt(g, all) && p < |all| && all[p] == place && place != [] && subpath == Join(place, '/')
    ensures TreeAt(AddTwo(g, p, subpath, gpus, cores), PlaceTwo(all, p, gpus, cores))
  {
    AddResourcesKeepsTree(g, all, p, place, GPU, subpath, gpus);
    AddResourcesKeepsTree(AddResources(g, p, GPU, subpath, gpus), PlaceResources(all, p, GPU, gpus), p, place, CORE, subpath, cores);
  }

  lemma AddAllKeepsTree(g: Graph, all: seq<seq<string>>, p: nat, place: seq<string>, subpath: string, gpus: nat, cores: nat, memory: nat)
    requires TreeAt(g, all) && p < |all| && all[p] == place && place != [] && subpath == Join(place, '/')
    ensures TreeAt(AddAll(g, p, subpath, gpus, cores, memory), PlaceAll(all, p, gpus, cores, memory))
  {
    AddTwoKeepsTree(g, all, p, place, subpath, gpus, cores);
    var h, places := AddTwo(g, p, subpath, gpus, cores), PlaceTwo(all, p, gpus, cores);
    AddResourcesKeepsTree(h, places, p, place, MEMORY, subpath, memory);
    SameTree(AddResources(h, p, MEMORY, subpath, memory), PlaceResources(places, p, MEMORY, memory),
             AddAll(g, p, subpath, gpus, cores, memory), PlaceAll(all, p, gpus, cores, memory));
  }

  lemma PlaceJoined(info: NodeInfo, subnets: nat, nodeCount: nat)
    ensures Join(PlaceOf(info, subnets, nodeCount), '/') == Subpath(info, subnets, nodeCount)
  {
    var place := PlaceOf(info, subnets, nodeCount);
    assert place[1..] == [place[1]];
  }

  ghost predicate SlashFree(info: NodeInfo) {
    '/' !in Zone(info) && '/' !in info.name
  }

  lemma AddNodeKeepsTree(g: Graph, all: seq<seq<string>>, info: NodeInfo, subnets: nat, nodeCount: nat)
    requires TreeAt(g, all) && all != [] && all[0] == [] && SlashFree(info)
    ensures TreeAt(AddNode(g, info, subnets, nodeCount), PlaceNode(all, info, subnets, nodeCount))
  {
    var place := PlaceOf(info, subnets, nodeCount);
    assert [] + [place[0]] == [place[0]] && [place[0]] + [place[1]] == place;
    AddChildKeepsTree(g, all, 0, "subnet", Zone(info), subnets, place[0], DEFAULT_UNIT, DEFAULT_SIZE);
    var g1 := AddChild(g, 0, "subnet", Zone(info), subnets, place[0], DEFAULT_UNIT, DEFAULT_SIZE);
    PlaceJoined(info, subnets, nodeCount);
    AddChildKeepsTree(g1, all + [[place[0]]], |g.nodes|, "node", info.name, nodeCount,
                      Subpath(info, subnets, nodeCount), DEFAULT_UNIT, DEFAULT_SIZE);
  }

  lemma AddMachineKeepsTree(g: Graph, all: seq<seq<string>>, info: NodeInfo, subnets: nat, nodeCount: nat)
    requires TreeAt(g, all) && all != [] && all[0] == [] && SlashFree(info)
    ensures TreeAt(AddMachine(g, info, subnets, nodeCount), PlaceMachine(all, info, subnets, nodeCount))
  {
    PlaceJoined(info, subnets, nodeCount);
    AddNodeKeepsTree(g, all, info, subnets, nodeCount);
    var h, places, p := AddNode(g, info, subnets, nodeCount), PlaceNode(all, info, subnets, nodeCount), |g.nodes| + 1;
    assert |all| == |g.nodes| && places[p] == PlaceOf(info, subnets, nodeCount);
    AddAllKeepsTree(h, places, p, PlaceOf(info, subnets, nodeCount), Subpath(info, subnets, nodeCount), GpuCount(info), CoreCount(info), MemoryCount(info));
  }

  ghost predicate AllSlashFree(infos: seq<NodeInfo>) {
    forall i :: 0 <= i < |infos| ==> SlashFree(infos[i])
  }

  lemma RootIsTree()
    ensures TreeAt(Root(), PlaceOfRoot())
  {
    PlacePathIs([]);
    var nodes := Root().nodes;
    assert At(nodes[0], []);
    assert nodes[..0] == [] && PlaceOfRoot()[..0] == [];
    assert Placed(nodes[..0], PlaceOfRoot()[..0]);
  }

  lemma {:induction false} RootFirst(infos: seq<NodeInfo>, skipLabel: string)
    ensures Places(infos, skipLabel)[0] == []
  {
    if infos != [] {
      var front, last := infos[..|infos| - 1], infos[|infos| - 1];
      RootFirst(front, skipLabel);
    }
  }

  // The built graph is a rooted tree in all its views, and every vertex is at its place.
  lemma {:induction false} BuiltIsTree(infos: seq<NodeInfo>, skipLabel: string)
    requires AllSlashFree(infos)
    ensures Tree(Built(infos, skipLabel)) && Placed(Built(infos, skipLabel).nodes, Places(infos, skipLabel))
  {
    if infos == [] {
      RootIsTree();
    } else {
      var front, last := infos[..|infos| - 1], infos[|infos| - 1];
      assert SlashFree(last);
      BuiltIsTree(front, skipLabel);
      RootFirst(front, skipLabel);
      AddMachineKeepsTree(Built(front, skipLabel), Places(front, skipLabel), last, SubnetCount(front, skipLabel), |front|);
    }
  }

  // ----- how many vertices -----

  ghost function VertexCount(infos: seq<NodeInfo>, skipLabel: string): nat {
    if infos == [] then 1
    else
      var front, last := infos[..|infos| - 1], infos[|infos| - 1];
      VertexCount(front, skipLabel)
      + if Included(last, skipLabel) then 2 + GpuCount(last) + CoreCount(last) + MemoryCount(last) else 0
  }

  lemma {:induction false} AddResourcesSize(g: Graph, p: nat, k: Kind, subpath: string, n: nat)
    ensures |AddResources(g, p, k, subpath, n).nodes| == |g.nodes| + n
  {
    if n > 0 {
      AddResourcesSize(g, p, k, subpath, n - 1);
    }
  }

  // One vertex for the cluster, and two and the resources for each included node, whatever the names.
  lemma {:induction false} VertexTotal(infos: seq<NodeInfo>, skipLabel: string)
    ensures |Built(infos, skipLabel).nodes| == VertexCount(infos, skipLabel)
  {
    if infos != [] {
      var front, last := infos[..|infos| - 1], infos[|infos| - 1];
      VertexTotal(front, skipLabel);
      var g, p, s := Built(front, skipLabel), |Built(front, skipLabel).nodes| + 1, Subpath(last, SubnetCount(front, skipLabel), |front|);
      var g1 := AddNode(g, last, SubnetCount(front, skipLabel), |front|);
      var g2 := AddResources(g1, p, GPU, s, GpuCount(last));
      var g3 := AddResources(g2, p, CORE, s, CoreCount(last));
      AddResourcesSize(g1, p, GPU, s, GpuCount(last));
      AddResourcesSize(g2, p, CORE, s, CoreCount(last));
      AddResourcesSize(g3, p, MEMORY, s, MemoryCount(last));
    }
  }

  // ----- what a tree in this sense means -----

  ghost predicate ParentEdge(g: Graph, e: nat, k: nat) {
    e < |g.edges| && g.edges[e].relation == "contains" && g.edges[e].target == Decimal(k)
  }

  ghost predicate InEdge(g: Graph, e: nat, k: nat) {
    e < |g.edges| && g.edges[e].relation == "in" && g.edges[e].source == Decimal(k)
  }

  lemma EdgeAt(g: Graph, e: nat)
    requires Tree(g) && e < |g.edges|
    ensures g.edges[e].relation == "contains" ==> e % 2 == 0 && g.edges[e].target == Decimal(e / 2 + 1)
    ensures g.edges[e].relation == "in" ==> e % 2 == 1 && g.edges[e].source == Decimal(e / 2 + 1)
  {
    var p := ParentOf(g, |g.nodes|, e / 2 + 1);
  }

  // Each vertex but the root has exactly one contains-parent, of smaller id, and exactly one in-edge,
  // to the same parent; the root has neither.
  lemma OneParent(g: Graph, k: nat) returns (p: nat)
    requires Tree(g) && k < |g.nodes|
    ensures forall e: nat :: ParentEdge(g, e, k) <==> k > 0 && e == 2 * k - 2
    ensures forall e: nat :: InEdge(g, e, k) <==> k > 0 && e == 2 * k - 1
    ensures k > 0 ==> p < k && g.edges[2 * k - 2].source == Decimal(p) && g.edges[2 * k - 1].target == Decimal(p)
  {
    p := 0;
    if k > 0 {
      p := ParentOf(g, |g.nodes|, k);
    }
    forall e: nat ensures ParentEdge(g, e, k) <==> k > 0 && e == 2 * k - 2 {
      if ParentEdge(g, e, k) {
        EdgeAt(g, e);
        DecimalInjective(k, e / 2 + 1);
      }
    }
    forall e: nat ensures InEdge(g, e, k) <==> k > 0 && e == 2 * k - 1 {
      if InEdge(g, e, k) {
        EdgeAt(g, e);
        DecimalInjective(k, e / 2 + 1);
      }
    }
  }

  // Every vertex is below the root: its path starts with the root's path.
  lemma {:induction false} BelowRoot(g: Graph, k: nat)
    requires Tree(g) && k < |g.nodes|
    ensures g.nodes[0].path <= g.nodes[k].path
  {
    if k > 0 {
      var p := ParentOf(g, |g.nodes|, k);
      BelowRoot(g, p);
    }
  }
}
