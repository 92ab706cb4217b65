/** From a pod to a Fluxion jobspec: PreparePodJobSpec sums the requests of the containers,
    createResources asks for count slots of that size. */
module Jobspec {
  import opened Collections
  import opened GoInt
  import opened Tables

  // What Value() reads from the requests of a container, and from its limit for nvidia.com/gpu.
  datatype Container = Container(cpu: nat, memory: nat, storage: nat, gpu: nat)

  // cpu is an int32, the other numbers are int64.
  datatype PodSpec = PodSpec(id: string, container: string, labels: seq<string>, cpu: int, memory: int, gpu: int, storage: int)

  datatype Resource = Resource(kind: string, count: int, name: string, contents: seq<Resource>)

  // ----- PreparePodJobSpec -----

  predicate Contains(s: string, part: string) {
    part <= s || (s != "" && Contains(s[1..], part))
  }

  ghost predicate OccursAt(s: string, part: string, i: nat) {
    i + |part| <= |s| && s[i..i + |part|] == part
  }

  lemma {:induction false} ContainsIff(s: string, part: string)
    ensures Contains(s, part) <==> exists i: nat :: OccursAt(s, part, i)
  {
    if part <= s {
      assert OccursAt(s, part, 0);
    } else if s != "" {
      ContainsIff(s[1..], part);
      if i: nat :| OccursAt(s[1..], part, i) {
        assert OccursAt(s, part, i + 1);
      }
      if i: nat :| OccursAt(s, part, i) {
        assert i > 0 && OccursAt(s[1..], part, i - 1);
      }
    } else {
      assert !OccursAt(s, part, 0);
    }
  }

  ghost predicate JobspecLabel(labels: map<string, string>, value: string) {
    exists k :: k in labels && Contains(k, "jobspec") && labels[k] == value
  }

  function JobspecKeys(labels: map<string, string>): set<string> {
    set k | k in labels && Contains(k, "jobspec")
  }

  // The values of the labels whose key contains "jobspec", each label once, in some order.
  ghost predicate LabelValues(labels: map<string, string>, values: seq<string>) {
    exists keys :: ValuesUnder(labels, keys, values)
  }

  ghost predicate ValuesUnder(labels: map<string, string>, keys: seq<string>, values: seq<string>) {
    && Lists(keys, JobspecKeys(labels)) && |values| == |keys|
    && forall i :: 0 <= i < |keys| ==> keys[i] in labels && values[i] == labels[keys[i]]
  }

  // The map is read in an arbitrary order.
  method GetPodJobspecLabels(labels: map<string, string>) returns (values: seq<string>)
    ensures LabelValues(labels, values)
  {
    values := [];
    ghost var keys: seq<string> := [];
    var todo := labels.Keys;
    while todo != {}
      invariant todo <= labels.Keys && |values| == |keys|
      invariant Lists(keys, JobspecKeys(labels) - todo)
      invariant forall i :: 0 <= i < |keys| ==> keys[i] in labels && values[i] == labels[keys[i]]
    {
      var key :| key in todo;
      if Contains(key, "jobspec") {
        values := values + [labels[key]];
        keys := keys + [key];
      }
      todo := todo - {key};
    }
    assert JobspecKeys(labels) - todo == JobspecKeys(labels);
    assert ValuesUnder(labels, keys, values);
  }

  // So a value is there exactly when some such label has it.
  lemma ValueThere(labels: map<string, string>, values: seq<string>, value: string)
    requires LabelValues(labels, values)
    ensures value in values <==> JobspecLabel(labels, value)
  {
    var keys :| ValuesUnder(labels, keys, values);
    if k :| k in labels && Contains(k, "jobspec") && labels[k] == value {
      assert k in keys;
    }
    if value in values {
      var i :| 0 <= i < |values| && values[i] == value;
      assert keys[i] in JobspecKeys(labels);
    }
  }

  // The total of the containers' requests, without any width.
  ghost function Total(containers: seq<Container>): Container {
    if containers == [] then Container(0, 0, 0, 0)
    else
      var sum, last := Total(containers[..|containers| - 1]), containers[|containers| - 1];
      Container(sum.cpu + last.cpu, sum.memory + last.memory, sum.storage + last.storage, sum.gpu + last.gpu)
  }

  ghost function Plus(a: Container, b: Container): Container {
    Container(a.cpu + b.cpu, a.memory + b.memory, a.storage + b.storage, a.gpu + b.gpu)
  }

  // One container counts as itself, and lists of containers add up.
  lemma {:induction false} TotalAdds(a: seq<Container>, b: seq<Container>, c: Container)
    ensures Total([]) == Container(0, 0, 0, 0) && Total([c]) == c
    ensures Total(a + b) == Plus(Total(a), Total(b))
  {
    assert [c][..0] == [];
    if b == [] {
      assert a + b == a;
    } else {
      TotalAdds(a, b[..|b| - 1], c);
      assert (a + b)[..|a + b| - 1] == a + b[..|b| - 1];
    }
  }

  datatype Sums = Sums(cpus: int, memory: int, gpus: int, storage: int)

  // The sums in the widths of the program, wrapped after every addition.
  ghost function Summed(containers: seq<Container>): Sums {
    if containers == [] then Sums(0, 0, 0, 0)
    else
      var s, c := Summed(containers[..|containers| - 1]), containers[|containers| - 1];
      Sums(Wrap32(s.cpus + Wrap32(c.cpu)), Wrap64(s.memory + c.memory),
           Wrap64(s.gpus + c.gpu), Wrap64(s.storage + c.storage))
  }

  lemma {:induction false} SummedCpu(containers: seq<Container>)
    ensures Summed(containers).cpus == Wrap32(Total(containers).cpu)
  {
    if containers != [] {
      var front, c := containers[..|containers| - 1], containers[|containers| - 1];
      SummedCpu(front);
      WrapSum32(Total(front).cpu, c.cpu);
    }
  }

  lemma {:induction false} SummedMemory(containers: seq<Container>)
    ensures Summed(containers).memory == Wrap64(Total(containers).memory)
    ensures Summed(containers).storage == Wrap64(Total(containers).storage)
  {
    if containers != [] {
      var front, c := containers[..|containers| - 1], containers[|containers| - 1];
      SummedMemory(front);
      WrapOnce(Total(front).memory, c.memory);
      WrapOnce(Total(front).storage, c.storage);
    }
  }

  lemma {:induction false} SummedGpu(containers: seq<Container>)
    ensures Summed(containers).gpus == Wrap64(Total(containers).gpu)
  {
    if containers != [] {
      var front, c := containers[..|containers| - 1], containers[|containers| - 1];
      SummedGpu(front);
      WrapOnce(Total(front).gpu, c.gpu);
    }
  }

  // The accumulating loop of PreparePodJobSpec.
  method SumRequests(containers: seq<Container>) returns (cpus: int, memory: int, gpus: int, storage: int)
    ensures cpus == Wrap32(Total(containers).cpu) && memory == Wrap64(Total(containers).memory)
    ensures gpus == Wrap64(Total(containers).gpu) && storage == Wrap64(Total(containers).storage)
  {
    cpus, memory, gpus, storage := 0, 0, 0, 0;
    for i := 0 to |containers|
      invariant Sums(cpus, memory, gpus, storage) == Summed(containers[..i])
    {
      assert containers[..i + 1][..i] == containers[..i];
      var c := containers[i];
      cpus := Wrap32(cpus + Wrap32(c.cpu));
      memory := Wrap64(memory + c.memory);
      storage := Wrap64(storage + c.storage);
      gpus := Wrap64(gpus + c.gpu);
    }
    assert containers[..|containers|] == containers;
    SummedCpu(containers);
    SummedMemory(containers);
    SummedGpu(containers);
  }

  // The Cpu field for a total request: wrapped to an int32, and 1 for nothing.
  function CpuField(total: int): int {
    if Wrap32(total) == 0 then 1 else Wrap32(total)
  }

  method PreparePodJobSpec(labels: map<string, string>, containers: seq<Container>, groupName: string) returns (spec: PodSpec)
    ensures spec.id == groupName && spec.container == groupName
    ensures LabelValues(labels, spec.labels)
    ensures "zone" in spec.labels <==> JobspecLabel(labels, "zone")
    ensures spec.cpu == CpuField(Total(containers).cpu) && spec.memory == Wrap64(Total(containers).memory)
    ensures spec.gpu == Wrap64(Total(containers).gpu) && spec.storage == Wrap64(Total(containers).storage)
  {
    var jobspecLabels := GetPodJobspecLabels(labels);
    ValueThere(labels, jobspecLabels, "zone");
    var cpus, memory, gpus, storage := SumRequests(containers);
    if cpus == 0 {
      cpus := 1;
    }
    spec := PodSpec(groupName, groupName, jobspecLabels, cpus, memory, gpus, storage);
  }

  // The Cpu field is never 0, so dividing by it is safe; it is the total request,
  // but at least 1, exactly when that total fits an int32.
  lemma CpuFieldIs(total: nat)
    ensures CpuField(total) != 0
    ensures CpuField(total) == (if total == 0 then 1 else total) <==> total <= MAX_INT32
  {
    if total > MAX_INT32 {
      assert Wrap32(total) <= MAX_INT32;
    }
  }

  // ----- createResources -----

  function SocketResources(spec: PodSpec): seq<Resource> {
    [Resource("core", spec.cpu, "", [])]
    + (if spec.memory > 0 then [Resource("memory", spec.memory / 0x10_0000, "", [])] else [])
    + (if spec.gpu > 0 then [Resource("gpu", spec.gpu, "", [])] else [])
  }

  function JobResources(spec: PodSpec, socketResources: seq<Resource>, count: int): seq<Resource> {
    var slots := [Resource("slot", count, "default", socketResources)];
    if "zone" in spec.labels then [Resource("subnet", 1, "", [Resource("node", 1, "", slots)])] else slots
  }

  method CreateSocketResources(spec: PodSpec) returns (resources: seq<Resource>)
    ensures resources == SocketResources(spec)
  {
    resources := [Resource("core", spec.cpu, "", [])];
    if spec.memory > 0 {
      var toMB := spec.memory / 0x10_0000;
      resources := resources + [Resource("memory", toMB, "", [])];
    }
    if spec.gpu > 0 {
      resources := resources + [Resource("gpu", spec.gpu, "", [])];
    }
  }

  method CreateResources(spec: PodSpec, socketResources: seq<Resource>, count: int) returns (resources: seq<Resource>)
    ensures resources == JobResources(spec, socketResources, count)
  {
    var slots := [Resource("slot", count, "default", socketResources)];
    for i := 0 to |spec.labels|
      invariant forall j :: 0 <= j < i ==> spec.labels[j] != "zone"
    {
      if spec.labels[i] == "zone" {
        return [Resource("subnet", 1, "", [Resource("node", 1, "", slots)])];
      }
    }
    return slots;
  }

  // How much of one kind a nested request asks for: counts multiply along the nesting.
  ghost function Demand(resources: seq<Resource>, kind: string): int {
    if resources == [] then 0
    else
      var r := resources[0];
      r.count * ((if r.kind == kind then 1 else 0) + Demand(r.contents, kind)) + Demand(resources[1..], kind)
  }

  lemma DemandOne(r: Resource, kind: string)
    ensures Demand([r], kind) == r.count * ((if r.kind == kind then 1 else 0) + Demand(r.contents, kind))
  {
  }

  lemma {:induction false} DemandPlus(a: seq<Resource>, b: seq<Resource>, kind: string)
    ensures Demand(a + b, kind) == Demand(a, kind) + Demand(b, kind)
  {
    if a == [] {
      assert a + b == b;
    } else {
      DemandPlus(a[1..], b, kind);
      assert (a + b)[1..] == a[1..] + b;
    }
  }

  // What one pod asks for.
  ghost function PodDemand(spec: PodSpec, kind: string): int {
    if kind == "core" then spec.cpu
    else if kind == "memory" && spec.memory > 0 then spec.memory / 0x10_0000
    else if kind == "gpu" && spec.gpu > 0 then spec.gpu
    else 0
  }

  lemma SocketDemand(spec: PodSpec, kind: string)
    ensures Demand(SocketResources(spec), kind) == PodDemand(spec, kind)
  {
    var core, gpu := Resource("core", spec.cpu, "", []), Resource("gpu", spec.gpu, "", []);
    var memory := Resource("memory", spec.memory / 0x10_0000, "", []);
    var m, g := (if spec.memory > 0 then [memory] else []), (if spec.gpu > 0 then [gpu] else []);
    DemandPlus([core] + m, g, kind);
    DemandPlus([core], m, kind);
    DemandOne(core, kind);
    DemandOne(memory, kind);
    DemandOne(gpu, kind);
  }

  // All cores and gpus that the pod needs, and its memory rounded down to whole MB.
  lemma PodDemandIs(spec: PodSpec)
    ensures PodDemand(spec, "core") == spec.cpu
    ensures PodDemand(spec, "gpu") == if spec.gpu > 0 then spec.gpu else 0
    ensures spec.memory > 0 ==> PodDemand(spec, "memory") * 1024 * 1024 <= spec.memory < (PodDemand(spec, "memory") + 1) * 1024 * 1024
    ensures spec.memory <= 0 ==> PodDemand(spec, "memory") == 0
  {
  }

  ghost function ZoneCount(spec: PodSpec): int {
    if "zone" in spec.labels then 1 else 0
  }

  // Plain or under a zone, the request is for count slots that hold count times what one pod asks for;
  // under a zone label all of it has to come from a single node of a single subnet.
  lemma JobDemand(spec: PodSpec, count: int, kind: string)
    ensures Demand(JobResources(spec, SocketResources(spec), count), kind) ==
      if kind == "subnet" || kind == "node" then ZoneCount(spec)
      else if kind == "slot" then count
      else count * PodDemand(spec, kind)
  {
    var slot := Resource("slot", count, "default", SocketResources(spec));
    var node := Resource("node", 1, "", [slot]);
    SocketDemand(spec, kind);
    DemandOne(slot, kind);
    DemandOne(node, kind);
    DemandOne(Resource("subnet", 1, "", [node]), kind);
    assert kind in {"subnet", "node", "slot"} ==> PodDemand(spec, kind) == 0;
  }

  // Exactly the slots carry the label "default".
  ghost predicate SlotsLabelled(resources: seq<Resource>) {
    resources == [] ||
      (resources[0].name == (if resources[0].kind == "slot" then "default" else "")
       && SlotsLabelled(resources[0].contents) && SlotsLabelled(resources[1..]))
  }

  lemma {:induction false} LabelledPlus(a: seq<Resource>, b: seq<Resource>)
    requires SlotsLabelled(a) && SlotsLabelled(b)
    ensures SlotsLabelled(a + b)
  {
    if a == [] {
      assert a + b == b;
    } else {
      LabelledPlus(a[1..], b);
      assert (a + b)[1..] == a[1..] + b;
    }
  }

  ghost function KindsOf(resources: seq<Resource>): seq<string> {
    seq(|resources|, i requires 0 <= i < |resources| => resources[i].kind)
  }

  // Memory and gpus are asked for only if some are needed.
  lemma SocketKinds(spec: PodSpec)
    ensures KindsOf(SocketResources(spec)) ==
      ["core"] + (if spec.memory > 0 then ["memory"] else []) + (if spec.gpu > 0 then ["gpu"] else [])
  {
  }

  lemma LabelledOne(r: Resource)
    requires r.name == (if r.kind == "slot" then "default" else "") && SlotsLabelled(r.contents)
    ensures SlotsLabelled([r])
  {
    assert [r][1..] == [];
  }

  lemma JobIsLabelled(spec: PodSpec, count: int)
    ensures SlotsLabelled(JobResources(spec, SocketResources(spec), count))
  {
    var core, gpu := Resource("core", spec.cpu, "", []), Resource("gpu", spec.gpu, "", []);
    var memory := Resource("memory", spec.memory / 0x10_0000, "", []);
    LabelledOne(core);
    LabelledOne(memory);
    LabelledOne(gpu);
    LabelledPlus([core], if spec.memory > 0 then [memory] else []);
    LabelledPlus([core] + (if spec.memory > 0 then [memory] else []), if spec.gpu > 0 then [gpu] else []);
    var slot := Resource("slot", count, "default", SocketResources(spec));
    LabelledOne(slot);
    LabelledOne(Resource("node", 1, "", [slot]));
    LabelledOne(Resource("subnet", 1, "", [Resource("node", 1, "", [slot])]));
  }

  // The kinds met on the way down the first of each list.
  ghost function KindsDown(resources: seq<Resource>): seq<string> {
    if resources == [] then [] else [resources[0].kind] + KindsDown(resources[0].contents)
  }

  lemma KindsDownOne(r: Resource)
    ensures KindsDown([r]) == [r.kind] + KindsDown(r.contents)
  {
  }

  lemma JobNesting(spec: PodSpec, count: int)
    ensures KindsDown(JobResources(spec, SocketResources(spec), count)) ==
      if "zone" in spec.labels then ["subnet", "node", "slot", "core"] else ["slot", "core"]
  {
    var slot := Resource("slot", count, "default", SocketResources(spec));
    assert KindsDown(SocketResources(spec)) == ["core"];
    KindsDownOne(slot);
    KindsDownOne(Resource("node", 1, "", [slot]));
    KindsDownOne(Resource("subnet", 1, "", [Resource("node", 1, "", [slot])]));
  }
}
