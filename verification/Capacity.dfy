/** What a cluster node offers: its allocatable quantities minus the requests of its pods. */
module Capacity {
  import opened Options
  import opened GoInt
  import opened Quantities
  import opened Tables

  type Requests = map<string, Quantity>

  datatype NodeInfo = NodeInfo(name: string, labels: map<string, string>, unschedulable: bool,
                               cpu: Quantity, memory: Quantity, gpus: Option<Quantity>, pods: seq<Requests>)

  // ----- computeTotalRequests -----

  ghost function RequestOf(requests: Requests, name: string): nat {
    if name in requests then requests[name] else 0
  }

  // The sum over the pods of what they request of one resource.
  ghost function TotalOf(pods: seq<Requests>, name: string): nat {
    if pods == [] then 0 else TotalOf(pods[..|pods| - 1], name) + RequestOf(pods[|pods| - 1], name)
  }

  // One pod counts with its own request, and lists of pods add up.
  lemma {:induction false} TotalAdds(a: seq<Requests>, b: seq<Requests>, pod: Requests, name: string)
    ensures TotalOf([], name) == 0 && TotalOf([pod], name) == if name in pod then pod[name] else 0
    ensures TotalOf(a + b, name) == TotalOf(a, name) + TotalOf(b, name)
  {
    assert [pod][..0] == [];
    if b == [] {
      assert a + b == a;
    } else {
      TotalAdds(a, b[..|b| - 1], pod, name);
      assert (a + b)[..|a + b| - 1] == a + b[..|b| - 1];
    }
  }

  ghost predicate Named(pods: seq<Requests>, name: string) {
    exists i :: 0 <= i < |pods| && name in pods[i]
  }

  ghost predicate Totals(total: Requests, pods: seq<Requests>) {
    forall name :: (name in total <==> Named(pods, name)) && RequestOf(total, name) == TotalOf(pods, name)
  }

  // total after the requests in done were added.
  ghost predicate Added(total: Requests, before: Requests, requests: Requests, done: set<string>) {
    forall name ::
      && (name in total <==> name in before || (name in requests && name in done))
      && RequestOf(total, name) == RequestOf(before, name) + if name in done then RequestOf(requests, name) else 0
  }

  // The inner loop: the requests of one pod, in an arbitrary map order.
  method AddRequests(before: Requests, requests: Requests) returns (total: Requests)
    ensures Added(total, before, requests, requests.Keys)
  {
    total := before;
    var todo := requests.Keys;
    while todo != {}
      invariant todo <= requests.Keys
      invariant Added(total, before, requests, requests.Keys - todo)
    {
      var name :| name in todo;
      if name !in total {
        total := total[name := requests[name]];
      } else {
        total := total[name := total[name] + requests[name]];
      }
      todo := todo - {name};
    }
    assert requests.Keys - todo == requests.Keys;
  }

  method ComputeTotalRequests(pods: seq<Requests>) returns (total: Requests)
    ensures Totals(total, pods)
  {
    total := map[];
    for i := 0 to |pods|
      invariant Totals(total, pods[..i])
    {
      ghost var before := total;
      total := AddRequests(total, pods[i]);
      TotalsStep(total, before, pods, i);
    }
    assert pods[..|pods|] == pods;
  }

  lemma TotalsStep(total: Requests, before: Requests, pods: seq<Requests>, i: nat)
    requires i < |pods| && Totals(before, pods[..i]) && Added(total, before, pods[i], pods[i].Keys)
    ensures Totals(total, pods[..i + 1])
  {
    forall name
      ensures (name in total <==> Named(pods[..i + 1], name)) && RequestOf(total, name) == TotalOf(pods[..i + 1], name)
    {
      assert pods[..i + 1][..i] == pods[..i] && pods[..i + 1][i] == pods[i];
      NamedSnoc(pods[..i], pods[i], name);
      assert pods[..i + 1] == pods[..i] + [pods[i]];
    }
  }

  lemma NamedSnoc(pods: seq<Requests>, last: Requests, name: string)
    ensures Named(pods + [last], name) <==> Named(pods, name) || name in last
  {
    if Named(pods, name) {
      var i :| 0 <= i < |pods| && name in pods[i];
      assert (pods + [last])[i] == pods[i];
    }
    assert (pods + [last])[|pods|] == last;
  }

  // ----- the vertices of a node -----

  ghost function FreeMilli(node: NodeInfo): int {
    MilliValue(node.cpu) - MilliValue(TotalOf(node.pods, "cpu"))
  }

  ghost function FreeBytes(node: NodeInfo): int {
    Value(node.memory) - Value(TotalOf(node.pods, "memory"))
  }

  ghost function AtLeastZero(x: int): nat {
    if x < 0 then 0 else x
  }

  ghost function CoreCount(node: NodeInfo): nat {
    AtLeastZero(Quotient(FreeMilli(node), 1000))
  }

  ghost function MemoryCount(node: NodeInfo): nat {
    AtLeastZero(FreeBytes(node) / 0x4000_0000)
  }

  ghost function GpuCount(node: NodeInfo): nat {
    if node.gpus.Some? then Value(node.gpus.value) else 0
  }

  // What the three counting loops run to.
  method Available(node: NodeInfo) returns (availCpu: int, fractionMem: int)
    ensures availCpu == Quotient(FreeMilli(node), 1000) && fractionMem == FreeBytes(node) / 0x4000_0000
  {
    var reqs := ComputeTotalRequests(node.pods);
    assert RequestOf(reqs, "cpu") == TotalOf(node.pods, "cpu") && RequestOf(reqs, "memory") == TotalOf(node.pods, "memory");
    var cpuReqs := if "cpu" in reqs then reqs["cpu"] else 0;
    var memReqs := if "memory" in reqs then reqs["memory"] else 0;
    availCpu := Quotient(MilliValue(node.cpu) - MilliValue(cpuReqs), 1000);
    fractionMem := (Value(node.memory) - Value(memReqs)) / 0x4000_0000;
  }

  // The advertised vertices are sound, at most what is free, and tight, one more would be too many.
  lemma CapacitySoundAndTight(node: NodeInfo)
    ensures var free := MilliValue(node.cpu) - MilliValue(TotalOf(node.pods, "cpu"));
      1000 * CoreCount(node) <= AtLeastZero(free) < 1000 * (CoreCount(node) + 1)
    ensures var free := Value(node.memory) - Value(TotalOf(node.pods, "memory"));
      MemoryCount(node) * 0x4000_0000 <= AtLeastZero(free) < (MemoryCount(node) + 1) * 0x4000_0000
    ensures GpuCount(node) == match node.gpus case None => 0 case Some(gpus) => Value(gpus)
  {
    QuotientFits(FreeMilli(node), 1000);
  }
}
