/** The last step, the bind loop of the scheduler, and the way of a whole gang from the queue to its nodes. */
module Binding {
  import opened Collections
  import opened Text
  import opened GoInt
  import opened Tables
  import opened Provisional
  import opened Quorum
  import opened Allocation
  import opened Jobspec

  // The job arguments that come back with the event; nodes and names are comma-joined lists.
  datatype JobResult = JobResult(nodes: string, names: string)
  {
    function GetNodes(): (nodes: seq<string>)
      ensures nodes != []
    {
      Split(this.nodes, ',')
    }

    function GetPodNames(): seq<string> {
      Split(names, ',')
    }
  }

  datatype Plan = Plan(pod: string, node: string)

  // The i-th node takes the i-th pod.
  function Zip(nodes: seq<string>, pods: seq<string>): (plans: seq<Plan>)
    ensures |plans| == if |nodes| <= |pods| then |nodes| else |pods|
    ensures forall i :: 0 <= i < |plans| ==> plans[i] == Plan(pods[i], nodes[i])
  {
    if nodes == [] || pods == [] then [] else [Plan(pods[0], nodes[0])] + Zip(nodes[1..], pods[1..])
  }

  // The event handler's bind loop; a pod index out of range panics after the binds made so far.
  method BindAll(result: JobResult, cancelled: bool) returns (plans: seq<Plan>, panicked: bool)
    ensures cancelled ==> plans == [] && !panicked
    ensures !cancelled ==> plans == Zip(result.GetNodes(), result.GetPodNames())
    ensures !cancelled ==> (panicked <==> |result.GetNodes()| > |result.GetPodNames()|)
  {
    var nodes, podNames := result.GetNodes(), result.GetPodNames();
    plans, panicked := [], false;
    if cancelled {
      return;
    }
    if |nodes| > 0 {
      for i := 0 to |nodes|
        invariant i <= |podNames| && |plans| == i
        invariant forall j :: 0 <= j < i ==> plans[j] == Plan(podNames[j], nodes[j])
      {
        if i >= |podNames| {
          return plans, true;
        }
        plans := plans + [Plan(podNames[i], nodes[i])];
      }
    }
  }

  // What arrives on the event channel of Run.
  datatype Event =
    | Closed                                  // a nil event
    | Skipped                                 // a cleanup job, or arguments that do not parse
    | Finished(result: JobResult, cancelled: bool)

  datatype LoopState = Waiting | Ended | Crashed

  // The binds that a sequence of events leads to, and the state of the loop after it.
  ghost function Handled(events: seq<Event>): (seq<Plan>, LoopState) {
    if events == [] then ([], Waiting)
    else
      var (plans, state) := Handled(events[..|events| - 1]);
      if state != Waiting then (plans, state)
      else
        match events[|events| - 1]
        case Closed => (plans, Ended)
        case Skipped => (plans, Waiting)
        case Finished(result, true) => (plans, Ended)
        case Finished(result, false) =>
          (plans + Zip(result.GetNodes(), result.GetPodNames()),
           if |result.GetNodes()| > |result.GetPodNames()| then Crashed else Waiting)
  }

  // An event after which the loop does nothing any more.
  predicate EndsLoop(event: Event) {
    match event
    case Closed => true
    case Skipped => false
    case Finished(result, cancelled) => cancelled || |Split(result.nodes, ',')| > |Split(result.names, ',')|
  }

  ghost predicate GoesOn(events: seq<Event>) {
    forall i :: 0 <= i < |events| ==> !EndsLoop(events[i])
  }

  // How many binds the first k events lead to: one for each node of a finished job.
  ghost function BindsUpTo(events: seq<Event>, k: nat): nat
    requires k <= |events|
  {
    if k == 0 then 0
    else BindsUpTo(events, k - 1) + if events[k - 1].Finished? then |Split(events[k - 1].result.nodes, ',')| else 0
  }

  // The j-th pod of the i-th job is bound to its j-th node, after the binds of all earlier jobs.
  ghost predicate Bound(events: seq<Event>, plans: seq<Plan>, i: nat, j: nat)
    requires i < |events| && events[i].Finished?
  {
    var at, nodes, pods := BindsUpTo(events, i) + j, Split(events[i].result.nodes, ','), Split(events[i].result.names, ',');
    j < |nodes| && j < |pods| && at < |plans| && plans[at] == Plan(pods[j], nodes[j])
  }

  method WaitForJob(events: seq<Event>) returns (plans: seq<Plan>, state: LoopState)
    ensures (plans, state) == Handled(events)
    ensures state == Waiting <==> GoesOn(events)
    ensures GoesOn(events) ==> |plans| == BindsUpTo(events, |events|)
    ensures GoesOn(events) ==> forall i: nat, j: nat :: i < |events| && events[i].Finished? && j < |Split(events[i].result.nodes, ',')| ==>
      Bound(events, plans, i, j)
  {
    WaitsIff(events);
    if GoesOn(events) {
      BindCount(events);
      forall i: nat, j: nat | i < |events| && events[i].Finished? && j < |Split(events[i].result.nodes, ',')|
        ensures Bound(events, Handled(events).0, i, j)
      {
        JobIsBound(events, i, j);
      }
    }
    plans, state := [], Waiting;
    for i := 0 to |events|
      invariant state == Waiting && (plans, state) == Handled(events[..i])
    {
      ghost var before := plans;
      assert events[..i + 1][..i] == events[..i];
      match events[i]
      case Closed =>
        StaysOver(events, i + 1);
        return plans, Ended;
      case Skipped =>
      case Finished(result, cancelled) =>
        var made, panicked := BindAll(result, cancelled);
        plans := plans + made;
        if cancelled {
          assert plans == before;
          StaysOver(events, i + 1);
          return plans, Ended;
        }
        if panicked {
          StaysOver(events, i + 1);
          return plans, Crashed;
        }
    }
    assert events[..|events|] == events;
  }

  // Once the loop is over it stays over: after a cancelled job no pod is ever bound again.
  lemma {:induction false} StaysOver(events: seq<Event>, k: nat)
    requires k <= |events| && Handled(events[..k]).1 != Waiting
    ensures Handled(events) == Handled(events[..k])
    decreases |events|
  {
    if k == |events| {
      assert events[..k] == events;
    } else {
      assert events[..|events| - 1][..k] == events[..k];
      StaysOver(events[..|events| - 1], k);
    }
  }

  lemma {:induction false} SameBinds(events: seq<Event>, more: seq<Event>, k: nat)
    requires k <= |events| && events <= more
    ensures BindsUpTo(more, k) == BindsUpTo(events, k)
  {
    if k > 0 {
      SameBinds(events, more, k - 1);
    }
  }

  lemma HandledLast(events: seq<Event>)
    requires events != [] && Handled(events[..|events| - 1]).1 == Waiting
    ensures var (plans, state), (before, _) := Handled(events), Handled(events[..|events| - 1]); var last := events[|events| - 1];
      && before <= plans && (state == Waiting <==> !EndsLoop(last))
      && (state == Crashed <==> last.Finished? && !last.cancelled && EndsLoop(last))
      && (!last.Finished? || last.cancelled ==> plans == before)
      && (last.Finished? && !last.cancelled ==>
           var nodes, pods := Split(last.result.nodes, ','), Split(last.result.names, ',');
           && |plans| == |before| + (if EndsLoop(last) then |pods| else |nodes|)
           && forall j :: 0 <= j < |plans| - |before| ==> plans[|before| + j] == Plan(pods[j], nodes[j]))
  {
  }

  // The loop is still waiting exactly when no event ended it.
  lemma {:induction false} WaitsIff(events: seq<Event>)
    ensures Handled(events).1 == Waiting <==> GoesOn(events)
  {
    if events != [] {
      var front := events[..|events| - 1];
      WaitsIff(front);
      if Handled(front).1 == Waiting {
        HandledLast(events);
        assert forall i :: 0 <= i < |front| ==> events[i] == front[i];
      } else {
        var i :| 0 <= i < |front| && EndsLoop(front[i]);
        assert EndsLoop(events[i]);
      }
    }
  }

  lemma {:induction false} BindCount(events: seq<Event>)
    requires GoesOn(events)
    ensures |Handled(events).0| == BindsUpTo(events, |events|)
  {
    if events != [] {
      var front := events[..|events| - 1];
      BindCount(front);
      WaitsIff(front);
      HandledLast(events);
      SameBinds(front, events, |front|);
    }
  }

  lemma StillBound(events: seq<Event>, more: seq<Event>, plans: seq<Plan>, longer: seq<Plan>, i: nat, j: nat)
    requires events <= more && plans <= longer && i < |events| && events[i].Finished? && Bound(events, plans, i, j)
    ensures Bound(more, longer, i, j)
  {
    SameBinds(events, more, i);
  }

  lemma LastPlan(events: seq<Event>, j: nat)
    requires events != [] && Handled(events[..|events| - 1]).1 == Waiting
    requires events[|events| - 1].Finished? && !events[|events| - 1].cancelled
    requires j < |Split(events[|events| - 1].result.nodes, ',')| && j < |Split(events[|events| - 1].result.names, ',')|
    ensures var at, result := |Handled(events[..|events| - 1]).0| + j, events[|events| - 1].result;
      at < |Handled(events).0| && Handled(events).0[at] == Plan(Split(result.names, ',')[j], Split(result.nodes, ',')[j])
  {
    HandledLast(events);
  }

  lemma LastIsBound(events: seq<Event>, j: nat)
    requires events != [] && GoesOn(events[..|events| - 1]) && events[|events| - 1].Finished? && !events[|events| - 1].cancelled
    requires j < |Split(events[|events| - 1].result.nodes, ',')| && j < |Split(events[|events| - 1].result.names, ',')|
    ensures Bound(events, Handled(events).0, |events| - 1, j)
  {
    var front := events[..|events| - 1];
    WaitsIff(front);
    BindCount(front);
    SameBinds(front, events, |front|);
    LastPlan(events, j);
  }

  lemma {:induction false} JobIsBound(events: seq<Event>, i: nat, j: nat)
    requires GoesOn(events) && i < |events| && events[i].Finished? && j < |Split(events[i].result.nodes, ',')|
    ensures Bound(events, Handled(events).0, i, j)
  {
    var front := events[..|events| - 1];
    assert !EndsLoop(events[i]);
    if i < |front| {
      JobIsBound(front, i, j);
      WaitsIff(front);
      HandledLast(events);
      StillBound(front, events, Handled(front).0, Handled(events).0, i, j);
    } else {
      LastIsBound(events, j);
    }
  }

  // The loop ends at its first nil event, cancelled job or overrun.  The binds are those made before, and with
  // an overrun also one for each of that job's pods.
  lemma EndsAtFirst(events: seq<Event>, k: nat)
    requires k < |events| && EndsLoop(events[k]) && GoesOn(events[..k])
    ensures var (plans, state), (before, _) := Handled(events), Handled(events[..k]);
      var overrun := events[k].Finished? && !events[k].cancelled;
      && state == (if overrun then Crashed else Ended) && before <= plans
      && |plans| == BindsUpTo(events, k) + (if overrun then |Split(events[k].result.names, ',')| else 0)
      && (overrun ==> forall j: nat :: j < |Split(events[k].result.names, ',')| ==> Bound(events, plans, k, j))
  {
    var upto := events[..k + 1];
    assert upto[..k] == events[..k];
    WaitsIff(events[..k]);
    BindCount(events[..k]);
    SameBinds(events[..k], events, k);
    HandledLast(upto);
    StaysOver(events, k + 1);
  }

  lemma CancelEndsBinding(before: seq<Event>, result: JobResult, after: seq<Event>)
    ensures Handled(before + [Finished(result, true)] + after).0 == Handled(before).0
  {
    var events := before + [Finished(result, true)];
    assert events[..|events| - 1] == before;
    assert (events + after)[..|events|] == events;
    StaysOver(events + after, |events|);
  }

  // The server and the worker: from the allocated vertices to the node string of the job.
  method NodeString(vertices: seq<Vertex>, cpu: int) returns (nodeStr: string)
    requires cpu != 0
    ensures nodeStr == Join(Expanded(TaskList(Parsed(vertices, 0), cpu)), ',')
  {
    var nodelist := MatchNodes(vertices, cpu);
    var nodes := ExpandNodes(nodelist[..]);
    nodeStr := Join(nodes, ',');
  }

  // The test for an empty node list never fires: a job without tasks still binds its first pod, to node "".
  lemma NoTasksStillBinds(result: JobResult)
    requires result.nodes == Join([], ',')
    ensures Zip(result.GetNodes(), result.GetPodNames()) == [Plan(result.GetPodNames()[0], "")]
  {
  }

  // ----- what Fluxion grants -----

  // Some slots of cpu cores on each node, listed just before the node.
  datatype Grant = Grant(blocks: seq<Block>, tail: seq<Vertex>, slots: seq<nat>)

  ghost function Sum(slots: seq<nat>): nat {
    if slots == [] then 0 else Sum(slots[..|slots| - 1]) + slots[|slots| - 1]
  }

  ghost predicate SlotsOf(cores: nat, slots: nat, cpu: int) {
    cores == slots * cpu && cores <= MAX_INT32
  }

  // The list grants size slots in all, whole slots on every node, and no node name contains a comma.
  ghost predicate Grants(g: Grant, vertices: seq<Vertex>, size: int, cpu: int) {
    && ValidBlocks(g.blocks) && NodeFree(g.tail) && vertices == CoresFirst(g.blocks) + g.tail
    && |g.slots| == |g.blocks| && Sum(g.slots) == size
    && (forall i :: 0 <= i < |g.blocks| ==> SlotsOf(CoresIn(g.blocks[i].others), g.slots[i], cpu))
    && (forall i :: 0 <= i < |g.blocks| ==> ',' !in g.blocks[i].node.basename)
  }

  lemma SlotsAreTasks(cores: nat, slots: nat, cpu: int)
    requires cpu > 0 && SlotsOf(cores, slots, cpu)
    ensures TasksOf(cores, cpu) == slots
  {
    TasksFit(cores, cpu);
    Between(TasksOf(cores, cpu), slots, cpu);
  }

  lemma Between(t: int, s: int, cpu: int)
    requires cpu > 0 && t * cpu <= s * cpu < (t + 1) * cpu
    ensures t == s
  {
    assert (t + 1) * cpu == t * cpu + cpu && (s - t) * cpu == s * cpu - t * cpu;
    FarMultiple(s - t, cpu);
  }

  lemma {:induction false} OwnedAt(blocks: seq<Block>)
    ensures |Owned(blocks)| == |blocks|
    ensures forall i :: 0 <= i < |blocks| ==> Owned(blocks)[i] == AllocatedOf(blocks[i].node, CoresIn(blocks[i].others))
  {
    if blocks != [] {
      OwnedAt(blocks[1..]);
    }
  }

  lemma {:induction false} ExpandedSize(tasks: seq<NodeAlloc>, slots: seq<nat>)
    requires |tasks| == |slots| && forall i :: 0 <= i < |tasks| ==> tasks[i].tasks == slots[i]
    ensures |Expanded(tasks)| == Sum(slots)
  {
    if tasks != [] {
      ExpandedSize(tasks[..|tasks| - 1], slots[..|slots| - 1]);
    }
  }

  lemma {:induction false} ExpandedFree(tasks: seq<NodeAlloc>, sep: char)
    requires forall i :: 0 <= i < |tasks| ==> sep !in tasks[i].nodeID
    ensures Free(Expanded(tasks), sep)
  {
    if tasks != [] {
      ExpandedFree(tasks[..|tasks| - 1], sep);
    }
  }

  // The node list of a grant has one place per slot and survives the joined string.
  lemma GrantedNodes(g: Grant, vertices: seq<Vertex>, size: int, cpu: int)
    requires Grants(g, vertices, size, cpu) && size >= 1 && cpu > 0
    ensures var nodes := Expanded(TaskList(Parsed(vertices, 0), cpu));
      |nodes| == size && Split(Join(nodes, ','), ',') == nodes
  {
    var tasks := TaskList(Parsed(vertices, 0), cpu);
    CoresFirstParses(g.blocks, g.tail);
    OwnedAt(g.blocks);
    forall i | 0 <= i < |tasks| ensures tasks[i] == NodeAlloc(g.blocks[i].node.basename, g.slots[i]) {
      SlotsAreTasks(CoresIn(g.blocks[i].others), g.slots[i], cpu);
    }
    ExpandedSize(tasks, g.slots);
    ExpandedFree(tasks, ',');
    SplitJoin(Expanded(tasks), ',');
  }

  // ----- the gang -----

  ghost predicate CommaFree(names: set<string>) {
    forall n :: n in names ==> ',' !in n
  }

  // A job emitted in some run, with the result its worker writes for these vertices.
  ghost predicate Emits(run: Run, job: JobArgs) {
    && Valid(run) && job.Group() in Ready(After(run)) && JobOf(After(run), job.Group(), job)
    && job.groupSize >= 1 && CommaFree(PodNames(After(run), job.Group()))
  }

  ghost function ResultOf(job: JobArgs, vertices: seq<Vertex>, cpu: int): JobResult
    requires cpu != 0
  {
    JobResult(Join(Expanded(TaskList(Parsed(vertices, 0), cpu)), ','), job.names)
  }

  // The pod list of an emitted job survives the joined string: it is exactly the group's pods.
  lemma EmittedPods(run: Run, job: JobArgs) returns (names: seq<string>)
    requires Emits(run, job)
    ensures Lists(names, PodNames(After(run), job.Group())) && Split(job.names, ',') == names
    ensures |names| == |PodNames(After(run), job.Group())|
  {
    var t, key := After(run), job.Group();
    names :| FromPods(t, key, job, names);
    CountIs(run, key);
    CountedHaveRows(run, key);
    assert Counted(run, key)[0] in PodNames(t, key);
    assert Free(names, ',');
    SplitJoin(names, ',');
    ListSize(names, PodNames(t, key));
  }

  // The bind loop stays in range exactly when the group has as many pod rows as its size.
  lemma InRangeIff(run: Run, job: JobArgs, g: Grant, vertices: seq<Vertex>, cpu: int)
    requires Emits(run, job) && cpu > 0 && Grants(g, vertices, job.groupSize, cpu)
    ensures var result := ResultOf(job, vertices, cpu);
      && |result.GetNodes()| == job.groupSize
      && (|result.GetNodes()| <= |result.GetPodNames()| <==> job.groupSize <= |PodNames(After(run), job.Group())|)
  {
    GrantedNodes(g, vertices, job.groupSize, cpu);
    var names := EmittedPods(run, job);
  }

  ghost function NodesOf(plans: seq<Plan>): (nodes: seq<string>)
    ensures |nodes| == |plans| && forall i :: 0 <= i < |plans| ==> nodes[i] == plans[i].node
  {
    if plans == [] then [] else [plans[0].node] + NodesOf(plans[1..])
  }

  ghost predicate DistinctPods(plans: seq<Plan>, pods: set<string>) {
    && (forall i :: 0 <= i < |plans| ==> plans[i].pod in pods)
    && (forall i, j :: 0 <= i < j < |plans| ==> plans[i].pod != plans[j].pod)
  }

  lemma ZipDistinct(nodes: seq<string>, pods: seq<string>, all: set<string>)
    requires Lists(pods, all) && |nodes| <= |pods|
    ensures DistinctPods(Zip(nodes, pods), all) && NodesOf(Zip(nodes, pods)) == nodes
  {
  }

  // From the queue to the nodes: if no pod was counted twice in this round, no pod or node name contains a comma,
  // and Fluxion grants GroupSize slots of the pod's cores with whole slots on each node, then exactly
  // GroupSize binds are made, of distinct pods of the group, no index leaves its range, and no node
  // takes more pods than the cores allocated on it allow.
  lemma GangBinding(run: Run, job: JobArgs, containers: seq<Container>, g: Grant, vertices: seq<Vertex>)
    requires Emits(run, job) && Distinct(Counted(run, job.Group()))
    requires CpuField(Total(containers).cpu) > 0
    requires Grants(g, vertices, job.groupSize, CpuField(Total(containers).cpu))
    ensures var cpu := CpuField(Total(containers).cpu);
      var result := ResultOf(job, vertices, cpu);
      var plans := Zip(result.GetNodes(), result.GetPodNames());
      && |result.GetNodes()| <= |result.GetPodNames()|
      && |plans| == job.groupSize
      && DistinctPods(plans, PodNames(After(run), job.Group()))
      && (forall id :: Occurrences(NodesOf(plans), id) * cpu <= CoresOn(Parsed(vertices, 0), id))
  {
    var cpu := CpuField(Total(containers).cpu);
    var names := EmittedPods(run, job);
    QuorumReached(run, job.Group(), names);
    GrantedNodes(g, vertices, job.groupSize, cpu);
    var nodes := Expanded(TaskList(Parsed(vertices, 0), cpu));
    ZipDistinct(nodes, names, PodNames(After(run), job.Group()));
    forall id ensures Occurrences(nodes, id) * cpu <= CoresOn(Parsed(vertices, 0), id) {
      NeverOversubscribed(Parsed(vertices, 0), cpu, id);
    }
  }

  // Without that condition the loop does leave its range: a pod enqueued twice completes a group of two
  // that has a single pod row, and every grant of two slots makes the bind loop panic.
  lemma TwiceEnqueuedPanics(pod: Pod, group: PodGroup, job: JobArgs, g: Grant, vertices: seq<Vertex>, cpu: int)
    requires group.size == 2 && ',' !in pod.name && cpu > 0 && Grants(g, vertices, 2, cpu)
    requires job.Group() == KeyOf(pod, group)
    requires JobOf(After(Then(Then(Start, Enqueued(pod, group, 3)), Enqueued(pod, group, 3))), job.Group(), job)
    ensures var result := ResultOf(job, vertices, cpu); |result.GetNodes()| > |result.GetPodNames()|
  {
    var run := Then(Then(Start, Enqueued(pod, group, 3)), Enqueued(pod, group, 3));
    EnqueuedTwice(pod, group);
    FirstEnqueue(pod, group);
    assert After(run).groups[job.Group()].size == 2 && PodNames(After(run), job.Group()) == {pod.name};
    assert Valid(Then(Start, Enqueued(pod, group, 3)));
    assert Emits(run, job);
    InRangeIff(run, job, g, vertices, cpu);
  }
}
