/** The Flux JSON graph: vertices, edges, the node map and the counters that number them. */
module Jgf {
  import opened Options
  import opened Text
  import opened Paths

  const DEFAULT_RANK := -1
  const DEFAULT_SIZE := 1
  const DEFAULT_UNIT := ""
  const MEMORY_UNIT := "MB"

  datatype Node = Node(id: string, kind: string, basename: string, name: string, index: nat, uniqId: nat,
                       rank: int, exclusive: bool, unit: string, size: int, path: string)

  datatype Edge = Edge(source: string, target: string, relation: string)
  datatype Graph = Graph(nodes: seq<Node>, edges: seq<Edge>)
  datatype ResourceCount = ResourceCount(name: string, kind: string, elementId: nat, index: nat)
  {
    function NameWithIndex(): string {
      name + Decimal(index)
    }

    function StringElementId(): string {
      Decimal(elementId)
    }
  }

  function NodeOf(root: string, resource: ResourceCount, subpath: string, unit: string, size: int): Node {
    Node(resource.StringElementId(), resource.kind, resource.name, resource.NameWithIndex(), resource.index,
         resource.elementId, DEFAULT_RANK, false, unit, size, NodePath(root, subpath))
  }

  // The graph with one more vertex, numbered by the vertices before it.
  function WithNode(g: Graph, root: string, kind: string, name: string, index: nat, subpath: string, unit: string, size: int): Graph {
    g.(nodes := g.nodes + [NodeOf(root, ResourceCount(name, kind, |g.nodes|, index), subpath, unit, size)])
  }

  function WithEdges(g: Graph, parent: string, child: string): Graph {
    g.(edges := g.edges + [Edge(parent, child, "contains"), Edge(child, parent, "in")])
  }

  function CountOf(counts: map<string, nat>, name: string): nat {
    if name in counts then counts[name] else 0
  }

  // ----- the three views of the vertices -----

  // The id of a vertex is its place in the list.
  ghost predicate HasId(node: Node, k: nat) {
    node.id == Decimal(k) && node.uniqId == k
  }

  ghost predicate Numbered(nodes: seq<Node>) {
    nodes == [] || (Numbered(nodes[..|nodes| - 1]) && HasId(nodes[|nodes| - 1], |nodes| - 1))
  }

  lemma {:induction false} NumberedAt(nodes: seq<Node>, k: nat)
    requires Numbered(nodes) && k < |nodes|
    ensures nodes[k].id == Decimal(k) && nodes[k].uniqId == k
  {
    if k < |nodes| - 1 {
      NumberedAt(nodes[..|nodes| - 1], k);
    }
  }

  ghost predicate Maps(nodeMap: map<string, Node>, nodes: seq<Node>) {
    && (forall k :: 0 <= k < |nodes| ==> nodes[k].id in nodeMap && nodeMap[nodes[k].id] == nodes[k])
    && (forall id :: id in nodeMap ==> nodeMap[id] in nodes)
  }

  lemma StillNumbered(nodes: seq<Node>, node: Node)
    requires Numbered(nodes) && HasId(node, |nodes|)
    ensures Numbered(nodes + [node])
  {
    assert (nodes + [node])[..|nodes|] == nodes;
  }

  lemma IdsDiffer(nodes: seq<Node>, node: Node, k: nat)
    requires Numbered(nodes) && HasId(node, |nodes|) && k < |nodes|
    ensures nodes[k].id != node.id
  {
    NumberedAt(nodes, k);
    if nodes[k].id == node.id {
      DecimalInjective(k, |nodes|);
    }
  }

  lemma StillMapped(nodeMap: map<string, Node>, nodes: seq<Node>, node: Node)
    requires Maps(nodeMap, nodes) && forall k :: 0 <= k < |nodes| ==> nodes[k].id != node.id
    ensures Maps(nodeMap[node.id := node], nodes + [node])
  {
    var larger, more := nodeMap[node.id := node], nodes + [node];
    forall id | id in larger ensures larger[id] in more {
      assert more[|nodes|] == node;
    }
  }

  lemma OneMore(nodeMap: map<string, Node>, nodes: seq<Node>, node: Node)
    requires Numbered(nodes) && Maps(nodeMap, nodes) && HasId(node, |nodes|)
    ensures Numbered(nodes + [node]) && Maps(nodeMap[node.id := node], nodes + [node])
  {
    StillNumbered(nodes, node);
    forall k | 0 <= k < |nodes| ensures nodes[k].id != node.id {
      IdsDiffer(nodes, node, k);
    }
    StillMapped(nodeMap, nodes, node);
  }

  class FluxJGF {
    var graph: Graph
    var nodeMap: map<string, Node>
    var counts: map<string, nat>
    var elements: nat
    var rootName: string

    // The element counter, the vertex list and the node map agree.
    ghost predicate Valid()
      reads this
    {
      elements == |graph.nodes| && Numbered(graph.nodes) && Maps(nodeMap, graph.nodes)
    }

    constructor ()
      ensures Valid() && graph == Graph([], []) && counts == map["cluster" := 1] && rootName == ""
    {
      graph, nodeMap, counts, elements, rootName := Graph([], []), map[], map["cluster" := 1], 0, "";
    }

    method NextIndex() returns (next: nat)
      modifies this`elements
      ensures next == old(elements) && elements == old(elements) + 1
    {
      next := elements;
      elements := next + 1;
    }

    // Counts are kept by resource name.
    method NextResourceIndex(name: string) returns (next: nat)
      modifies this`counts
      ensures next == CountOf(old(counts), name) && counts == old(counts)[name := next + 1]
    {
      next := 0;
      if name in counts {
        next := counts[name];
      }
      counts := counts[name := next + 1];
    }

    method GetCounter(name: string, kind: string) returns (resource: ResourceCount)
      modifies this`counts, this`elements
      ensures resource == ResourceCount(name, kind, old(elements), CountOf(old(counts), name))
      ensures elements == old(elements) + 1 && counts == old(counts)[name := CountOf(old(counts), name) + 1]
    {
      var index := NextResourceIndex(name);
      var id := NextIndex();
      resource := ResourceCount(name, kind, id, index);
    }

    method MakeEdge(source: string, target: string, relation: string)
      modifies this`graph
      ensures graph == old(graph).(edges := old(graph).edges + [Edge(source, target, relation)])
      ensures old(Valid()) ==> Valid()
    {
      graph := graph.(edges := graph.edges + [Edge(source, target, relation)]);
    }

    method MakeBidirectionalEdge(parent: string, child: string)
      modifies this`graph
      ensures graph == WithEdges(old(graph), parent, child)
      ensures old(Valid()) ==> Valid()
    {
      MakeEdge(parent, child, "contains");
      MakeEdge(child, parent, "in");
    }

    // Called with the resource that GetCounter just numbered.
    method MakeNewNode(resource: ResourceCount, subpath: string, unit: string, size: int) returns (node: Node)
      requires Numbered(graph.nodes) && Maps(nodeMap, graph.nodes) && elements == |graph.nodes| + 1
      requires resource.elementId == |graph.nodes|
      modifies this`graph, this`nodeMap
      ensures Valid()
      ensures graph == WithNode(old(graph), rootName, resource.kind, resource.name, resource.index, subpath, unit, size)
      ensures node == graph.nodes[|old(graph).nodes|] && node.id == Decimal(|old(graph).nodes|)
    {
      node := NodeOf(rootName, resource, subpath, unit, size);
      OneMore(nodeMap, graph.nodes, node);
      graph := graph.(nodes := graph.nodes + [node]);
      nodeMap := nodeMap[node.id := node];
    }

    method MakeSubnet(name: string, index: nat) returns (node: Node)
      requires Valid()
      modifies this`graph, this`nodeMap, this`counts, this`elements
      ensures Valid() && graph == WithNode(old(graph), rootName, "subnet", name, index, name + Decimal(index), DEFAULT_UNIT, DEFAULT_SIZE)
      ensures node == graph.nodes[|old(graph).nodes|] && node.id == Decimal(|old(graph).nodes|)
    {
      var resource := GetCounter(name, "subnet");
      resource := resource.(index := index);
      node := MakeNewNode(resource, resource.NameWithIndex(), DEFAULT_UNIT, DEFAULT_SIZE);
    }

    method MakeNode(name: string, subpath: string, index: nat) returns (node: Node)
      requires Valid()
      modifies this`graph, this`nodeMap, this`counts, this`elements
      ensures Valid()
      ensures graph == WithNode(old(graph), rootName, "node", name, index,
                                subpath + "/" + (name + Decimal(index)), DEFAULT_UNIT, DEFAULT_SIZE)
      ensures node == graph.nodes[|old(graph).nodes|] && node.id == Decimal(|old(graph).nodes|)
    {
      var resource := GetCounter(name, "node");
      resource := resource.(index := index);
      node := MakeNewNode(resource, subpath + "/" + resource.NameWithIndex(), DEFAULT_UNIT, DEFAULT_SIZE);
    }

    method MakeCore(name: string, subpath: string, index: nat) returns (node: Node)
      requires Valid()
      modifies this`graph, this`nodeMap, this`counts, this`elements
      ensures Valid()
      ensures graph == WithNode(old(graph), rootName, "core", name, index,
                                subpath + "/" + (name + Decimal(index)), DEFAULT_UNIT, DEFAULT_SIZE)
      ensures node == graph.nodes[|old(graph).nodes|] && node.id == Decimal(|old(graph).nodes|)
    {
      var resource := GetCounter(name, "core");
      resource := resource.(index := index);
      node := MakeNewNode(resource, subpath + "/" + resource.NameWithIndex(), DEFAULT_UNIT, DEFAULT_SIZE);
    }

    method MakeMemory(name: string, subpath: string, size: int, index: nat) returns (node: Node)
      requires Valid()
      modifies this`graph, this`nodeMap, this`counts, this`elements
      ensures Valid()
      ensures graph == WithNode(old(graph), rootName, "memory", name, index,
                                subpath + "/" + (name + Decimal(index)), MEMORY_UNIT, size)
      ensures node == graph.nodes[|old(graph).nodes|] && node.id == Decimal(|old(graph).nodes|)
    {
      var resource := GetCounter(name, "memory");
      resource := resource.(index := index);
      node := MakeNewNode(resource, subpath + "/" + resource.NameWithIndex(), MEMORY_UNIT, size);
    }

    method MakeGPU(name: string, subpath: string, size: int, index: nat) returns (node: Node)
      requires Valid()
      modifies this`graph, this`nodeMap, this`counts, this`elements
      ensures Valid()
      ensures graph == WithNode(old(graph), rootName, "gpu", name, index,
                                subpath + "/" + (name + Decimal(index)), DEFAULT_UNIT, size)
      ensures node == graph.nodes[|old(graph).nodes|] && node.id == Decimal(|old(graph).nodes|)
    {
      var resource := GetCounter(name, "gpu");
      resource := resource.(index := index);
      node := MakeNewNode(resource, subpath + "/" + resource.NameWithIndex(), DEFAULT_UNIT, size);
    }

    // An error for a graph that already has vertices.
    method InitCluster(name: string) returns (root: Option<Node>)
      requires Valid()
      modifies this
      ensures Valid() && (root.None? <==> old(elements) > 0)
      ensures root.None? ==> graph == old(graph) && rootName == old(rootName) && counts == old(counts)
      ensures root.Some? ==> rootName == name + "0"
      ensures root.Some? ==>
        graph == WithNode(old(graph), rootName, "cluster", name, CountOf(old(counts), name), "", DEFAULT_UNIT, DEFAULT_SIZE)
      ensures root.Some? ==> |graph.nodes| == 1 && root.value == graph.nodes[0]
    {
      if elements > 0 {
        return None;
      }
      rootName := name + "0";
      var resource := GetCounter(name, "cluster");
      var node := MakeNewNode(resource, "", DEFAULT_UNIT, DEFAULT_SIZE);
      return Some(node);
    }
  }

  // The name of the root vertex is the root name that all paths start with, exactly for a cluster that
  // is not called "cluster": that name is already counted in a new graph.
  lemma RootNameIff(name: string)
    ensures name + Decimal(CountOf(map["cluster" := 1], name)) == name + "0" <==> name != "cluster"
  {
    assert Decimal(0) == "0" && Decimal(1) == "1";
    assert (name + "0")[|name|] == '0' && (name + "1")[|name|] == '1';
  }
}
