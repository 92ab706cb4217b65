/** What Fluxion allocated: ParseAllocResult counts the cores listed before each node,
    Match turns cores into tasks, and Work names a node once for each of its tasks. */
module Allocation {
  import opened GoInt

  // A vertex of the allocated graph.
  datatype Vertex = Vertex(kind: string, name: string, basename: string)

  datatype Allocated = Allocated(kind: string, name: string, basename: string, coreCount: nat)
  datatype NodeAlloc = NodeAlloc(nodeID: string, tasks: int)

  // ----- ParseAllocResult -----

  // The nodes of the list when some cores were already counted.
  function Parsed(vertices: seq<Vertex>, cores: nat): seq<Allocated> {
    if vertices == [] then []
    else
      var v := vertices[0];
      if v.kind == "core" then Parsed(vertices[1..], cores + 1)
      else if v.kind == "node" then [Allocated(v.kind, v.name, v.basename, cores)] + Parsed(vertices[1..], 0)
      else Parsed(vertices[1..], cores)
  }

  method ParseAllocResult(vertices: seq<Vertex>) returns (result: seq<Allocated>)
    ensures result == Parsed(vertices, 0)
  {
    result := [];
    var corecount := 0;
    for i := 0 to |vertices|
      invariant corecount >= 0 && Parsed(vertices, 0) == result + Parsed(vertices[i..], corecount)
    {
      var v := vertices[i];
      assert vertices[i..][1..] == vertices[i + 1..];
      if v.kind == "core" {
        corecount := corecount + 1;
      }
      if v.kind == "node" {
        result := result + [Allocated(v.kind, v.name, v.basename, corecount)];
        corecount := 0;
      }
    }
  }

  ghost function CoresIn(vertices: seq<Vertex>): nat {
    if vertices == [] then 0 else (if vertices[0].kind == "core" then 1 else 0) + CoresIn(vertices[1..])
  }

  ghost function CoreSum(list: seq<Allocated>): nat {
    if list == [] then 0 else list[0].coreCount + CoreSum(list[1..])
  }

  ghost predicate NodeFree(vertices: seq<Vertex>) {
    forall i :: 0 <= i < |vertices| ==> vertices[i].kind != "node"
  }

  // The vertices after the last node.
  ghost function Tail(vertices: seq<Vertex>): seq<Vertex> {
    if NodeFree(vertices) then vertices else Tail(vertices[1..])
  }

  // No core is lost or counted twice: the parsed counts and the cores after the last node are all cores.
  lemma {:induction false} CoresConserved(vertices: seq<Vertex>, cores: nat)
    ensures !NodeFree(vertices) ==> CoreSum(Parsed(vertices, cores)) + CoresIn(Tail(vertices)) == CoresIn(vertices) + cores
    ensures NodeFree(vertices) ==> Parsed(vertices, cores) == []
  {
    if vertices != [] {
      var v, rest := vertices[0], vertices[1..];
      CoresConserved(rest, if v.kind == "core" then cores + 1 else if v.kind == "node" then 0 else cores);
      if v.kind == "node" {
        assert Parsed(vertices, cores)[1..] == Parsed(rest, 0);
        TailWithin(rest);
      } else {
        assert NodeFree(rest) ==> NodeFree(vertices);
      }
    }
  }

  lemma TailWithin(vertices: seq<Vertex>)
    ensures NodeFree(vertices) ==> Tail(vertices) == vertices
  {
  }

  // ----- which lists parse to what -----

  // A node and the vertices of other kinds listed just before it, or just after it.
  datatype Block = Block(node: Vertex, others: seq<Vertex>)

  ghost predicate ValidBlocks(blocks: seq<Block>) {
    forall i :: 0 <= i < |blocks| ==> blocks[i].node.kind == "node" && NodeFree(blocks[i].others)
  }

  ghost function CoresFirst(blocks: seq<Block>): seq<Vertex> {
    if blocks == [] then [] else blocks[0].others + [blocks[0].node] + CoresFirst(blocks[1..])
  }

  ghost function NodeFirst(blocks: seq<Block>): seq<Vertex> {
    if blocks == [] then [] else [blocks[0].node] + blocks[0].others + NodeFirst(blocks[1..])
  }

  ghost function AllocatedOf(node: Vertex, cores: nat): Allocated {
    Allocated(node.kind, node.name, node.basename, cores)
  }

  // Each node with its own cores.
  ghost function Owned(blocks: seq<Block>): seq<Allocated> {
    if blocks == [] then [] else [AllocatedOf(blocks[0].node, CoresIn(blocks[0].others))] + Owned(blocks[1..])
  }

  lemma {:induction false} ParsePrefix(others: seq<Vertex>, rest: seq<Vertex>, cores: nat)
    requires NodeFree(others)
    ensures Parsed(others + rest, cores) == Parsed(rest, cores + CoresIn(others))
  {
    if others == [] {
      assert others + rest == rest;
    } else {
      assert (others + rest)[1..] == others[1..] + rest;
      ParsePrefix(others[1..], rest, cores + if others[0].kind == "core" then 1 else 0);
    }
  }

  lemma {:induction false} ParseTail(tail: seq<Vertex>, cores: nat)
    requires NodeFree(tail)
    ensures Parsed(tail, cores) == []
  {
    if tail != [] {
      ParseTail(tail[1..], cores + if tail[0].kind == "core" then 1 else 0);
    }
  }

  // A list that gives each node's cores just before it parses back to the same nodes with their own cores,
  // whatever other vertices stand between them and after the last node.
  lemma {:induction false} CoresFirstParses(blocks: seq<Block>, tail: seq<Vertex>)
    requires ValidBlocks(blocks) && NodeFree(tail)
    ensures Parsed(CoresFirst(blocks) + tail, 0) == Owned(blocks)
  {
    if blocks == [] {
      assert CoresFirst(blocks) + tail == tail;
      ParseTail(tail, 0);
    } else {
      var b, rest := blocks[0], CoresFirst(blocks[1..]) + tail;
      CoresFirstParses(blocks[1..], tail);
      assert CoresFirst(blocks) + tail == b.others + ([b.node] + rest);
      ParsePrefix(b.others, [b.node] + rest, 0);
      assert ([b.node] + rest)[1..] == rest;
    }
  }

  // With the nodes first, each node gets the cores of the node before it; the first one gets the cores before it.
  ghost function Shifted(blocks: seq<Block>, cores: nat): seq<Allocated> {
    if blocks == [] then [] else [AllocatedOf(blocks[0].node, cores)] + Shifted(blocks[1..], CoresIn(blocks[0].others))
  }

  lemma {:induction false} NodeFirstParses(blocks: seq<Block>, cores: nat)
    requires ValidBlocks(blocks)
    ensures Parsed(NodeFirst(blocks), cores) == Shifted(blocks, cores)
  {
    if blocks != [] {
      var b, rest := blocks[0], NodeFirst(blocks[1..]);
      assert NodeFirst(blocks) == [b.node] + (b.others + rest);
      assert NodeFirst(blocks)[1..] == b.others + rest;
      ParsePrefix(b.others, rest, 0);
      NodeFirstParses(blocks[1..], CoresIn(b.others));
    }
  }

  ghost predicate AllHave(blocks: seq<Block>, cores: nat) {
    forall i :: 0 <= i < |blocks| ==> CoresIn(blocks[i].others) == cores
  }

  lemma AllHaveTail(blocks: seq<Block>, cores: nat)
    requires blocks != []
    ensures AllHave(blocks, cores) <==> CoresIn(blocks[0].others) == cores && AllHave(blocks[1..], cores)
  {
    if AllHave(blocks[1..], cores) {
      forall i | 1 <= i < |blocks| ensures CoresIn(blocks[i].others) == cores {
        assert blocks[1..][i - 1] == blocks[i];
      }
    }
  }

  lemma {:induction false} ShiftedIsOwned(blocks: seq<Block>, cores: nat)
    ensures Shifted(blocks, cores) == Owned(blocks) <==> AllHave(blocks, cores)
  {
    if blocks != [] {
      var own := CoresIn(blocks[0].others);
      ShiftedIsOwned(blocks[1..], own);
      AllHaveTail(blocks, cores);
      assert Shifted(blocks, cores)[1..] == Shifted(blocks[1..], own) && Owned(blocks)[1..] == Owned(blocks[1..]);
      assert Shifted(blocks, cores)[0].coreCount == cores && Owned(blocks)[0].coreCount == own;
    }
  }

  // The parser counts the cores before a node, so a list that gives each node before its cores
  // is read back correctly only when there are no cores at all.
  lemma NodeFirstCondition(blocks: seq<Block>)
    requires ValidBlocks(blocks)
    ensures Parsed(NodeFirst(blocks), 0) == Owned(blocks) <==> AllHave(blocks, 0)
  {
    NodeFirstParses(blocks, 0);
    ShiftedIsOwned(blocks, 0);
  }

  // ----- Match: cores to tasks -----

  function TasksOf(cores: nat, cpu: int): int
    requires cpu != 0
  {
    if cpu > 0 then Quotient(Wrap32(cores), cpu) else Wrap32(-Quotient(Wrap32(cores), -cpu))
  }

  function TaskList(list: seq<Allocated>, cpu: int): (r: seq<NodeAlloc>)
    requires cpu != 0
    ensures |r| == |list|
    ensures forall i :: 0 <= i < |list| ==> r[i] == NodeAlloc(list[i].basename, TasksOf(list[i].coreCount, cpu))
  {
    if list == [] then [] else [NodeAlloc(list[0].basename, TasksOf(list[0].coreCount, cpu))] + TaskList(list[1..], cpu)
  }

  method MatchNodes(vertices: seq<Vertex>, cpu: int) returns (nodelist: array<NodeAlloc>)
    requires cpu != 0
    ensures nodelist[..] == TaskList(Parsed(vertices, 0), cpu)
  {
    var nodetasks := ParseAllocResult(vertices);
    nodelist := new NodeAlloc[|nodetasks|](_ => NodeAlloc("", 0));
    for i := 0 to |nodetasks|
      invariant forall j :: 0 <= j < i ==> nodelist[j] == NodeAlloc(nodetasks[j].basename, TasksOf(nodetasks[j].coreCount, cpu))
    {
      nodelist[i] := NodeAlloc(nodetasks[i].basename, TasksOf(nodetasks[i].coreCount, cpu));
    }
  }

  // The tasks of a node need no more cores than it got, also where the int32 conversion wraps,
  // and they are as many as fit when it does not.
  lemma TasksFit(cores: nat, cpu: int)
    requires cpu > 0
    ensures TasksOf(cores, cpu) * cpu <= cores
    ensures cores <= MAX_INT32 ==> 0 <= TasksOf(cores, cpu) && cores < (TasksOf(cores, cpu) + 1) * cpu
  {
    WrapNeverAbove(cores);
    QuotientFits(Wrap32(cores), cpu);
  }

  // ----- Work: tasks to a node list -----

  function Repeat(node: string, n: int): (r: seq<string>)
    ensures |r| == if n < 0 then 0 else n
    ensures forall i :: 0 <= i < |r| ==> r[i] == node
  {
    if n <= 0 then [] else [node] + Repeat(node, n - 1)
  }

  function Expanded(nodelist: seq<NodeAlloc>): seq<string> {
    if nodelist == [] then []
    else
      var last := nodelist[|nodelist| - 1];
      Expanded(nodelist[..|nodelist| - 1]) + Repeat(last.nodeID, last.tasks)
  }

  // One node's name once for each of its tasks, and lists of nodes one after the other.
  lemma {:induction false} ExpandedAdds(a: seq<NodeAlloc>, b: seq<NodeAlloc>, node: NodeAlloc)
    ensures |Expanded([node])| == (if node.tasks < 0 then 0 else node.tasks)
    ensures forall i :: 0 <= i < |Expanded([node])| ==> Expanded([node])[i] == node.nodeID
    ensures Expanded(a + b) == Expanded(a) + Expanded(b)
  {
    assert [node][..0] == [] && Expanded([node]) == [] + Repeat(node.nodeID, node.tasks);
    if b == [] {
      assert a + b == a;
    } else {
      ExpandedAdds(a, b[..|b| - 1], node);
      assert (a + b)[..|a + b| - 1] == a + b[..|b| - 1];
    }
  }

  lemma {:induction false} RepeatSnoc(node: string, n: nat)
    ensures Repeat(node, n + 1) == Repeat(node, n) + [node]
  {
    if n > 0 {
      RepeatSnoc(node, n - 1);
    }
  }

  // The inner loop of the expansion.
  method AppendTasks(nodes: seq<string>, node: NodeAlloc) returns (longer: seq<string>)
    ensures longer == nodes + Repeat(node.nodeID, node.tasks)
  {
    longer := nodes;
    var i := 0;
    while i < node.tasks
      invariant 0 <= i && (i <= node.tasks || i == 0)
      invariant longer == nodes + Repeat(node.nodeID, i)
    {
      RepeatSnoc(node.nodeID, i);
      longer := longer + [node.nodeID];
      i := i + 1;
    }
  }

  method ExpandNodes(nodelist: seq<NodeAlloc>) returns (nodes: seq<string>)
    ensures nodes == Expanded(nodelist)
  {
    nodes := [];
    for k := 0 to |nodelist|
      invariant nodes == Expanded(nodelist[..k])
    {
      assert nodelist[..k + 1][..k] == nodelist[..k];
      nodes := AppendTasks(nodes, nodelist[k]);
    }
    assert nodelist[..|nodelist|] == nodelist;
  }

  ghost function Occurrences(nodes: seq<string>, id: string): nat {
    multiset(nodes)[id]
  }

  // The cores allocated on all nodes with this basename.
  ghost function CoresOn(list: seq<Allocated>, id: string): nat {
    if list == [] then 0
    else
      var last := list[|list| - 1];
      CoresOn(list[..|list| - 1], id) + if last.basename == id then last.coreCount else 0
  }

  lemma RepeatCount(node: string, n: int, id: string)
    ensures Occurrences(Repeat(node, n), id) == if id == node && n > 0 then n else 0
  {
  }

  // A number of tasks that needs no more than some cores.
  ghost predicate Fits(tasks: int, cpu: int, cores: nat) {
    (if tasks > 0 then tasks else 0) * cpu <= cores
  }

  // One node's share: its places need no more than its cores.
  lemma ShareFits(node: NodeAlloc, cpu: int, cores: nat, id: string)
    requires Fits(node.tasks, cpu, cores)
    ensures Occurrences(Repeat(node.nodeID, node.tasks), id) * cpu <= if node.nodeID == id then cores else 0
  {
    RepeatCount(node.nodeID, node.tasks, id);
  }

  lemma OccurrencesAdd(a: seq<string>, b: seq<string>, id: string)
    ensures Occurrences(a + b, id) == Occurrences(a, id) + Occurrences(b, id)
  {
  }

  lemma SharesAdd(total: nat, x: nat, y: nat, cpu: int, a: nat, b: nat)
    requires total == x + y && x * cpu <= a && y * cpu <= b
    ensures total * cpu <= a + b
  {
    assert (x + y) * cpu == x * cpu + y * cpu;
  }

  ghost predicate AllFit(list: seq<Allocated>, tasks: seq<NodeAlloc>, cpu: int) {
    |list| == |tasks| && forall i :: 0 <= i < |list| ==> tasks[i].nodeID == list[i].basename && Fits(tasks[i].tasks, cpu, list[i].coreCount)
  }

  lemma {:induction false} PlacesFit(list: seq<Allocated>, tasks: seq<NodeAlloc>, cpu: int, id: string)
    requires AllFit(list, tasks, cpu)
    ensures Occurrences(Expanded(tasks), id) * cpu <= CoresOn(list, id)
  {
    if list != [] {
      var n := |list| - 1;
      PlacesFit(list[..n], tasks[..n], cpu, id);
      var places := Repeat(tasks[n].nodeID, tasks[n].tasks);
      OccurrencesAdd(Expanded(tasks[..n]), places, id);
      ShareFits(tasks[n], cpu, list[n].coreCount, id);
      SharesAdd(Occurrences(Expanded(tasks), id), Occurrences(Expanded(tasks[..n]), id), Occurrences(places, id), cpu,
                CoresOn(list[..n], id), if tasks[n].nodeID == id then list[n].coreCount else 0);
    }
  }

  // No node is oversubscribed: its places in the node list need no more cores than were allocated on it.
  lemma NeverOversubscribed(list: seq<Allocated>, cpu: int, id: string)
    requires cpu > 0
    ensures Occurrences(Expanded(TaskList(list, cpu)), id) * cpu <= CoresOn(list, id)
  {
    forall i | 0 <= i < |list| ensures Fits(TasksOf(list[i].coreCount, cpu), cpu, list[i].coreCount) {
      TasksFit(list[i].coreCount, cpu);
    }
    PlacesFit(list, TaskList(list, cpu), cpu, id);
  }
}
