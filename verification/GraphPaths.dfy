/** When the containment paths of the built graph are pairwise distinct. */
module GraphPaths {
  import opened Collections
  import opened Options
  import opened Text
  import opened Paths
  import opened Capacity
  import opened Jgf
  import opened GraphBuilder
  import opened GraphTree

  // ----- lists without repetition -----

  ghost predicate Apart<T(!new)>(a: seq<T>, b: seq<T>) {
    forall x :: x in a ==> x !in b
  }

  lemma DistinctPlus<T(!new)>(a: seq<T>, b: seq<T>)
    ensures Distinct(a + b) <==> Distinct(a) && Distinct(b) && Apart(a, b)
  {
    var s := a + b;
    if Distinct(s) {
      forall i, j | 0 <= i < j < |a| ensures a[i] != a[j] {
        assert s[i] == a[i] && s[j] == a[j];
      }
      forall i, j | 0 <= i < j < |b| ensures b[i] != b[j] {
        assert s[|a| + i] == b[i] && s[|a| + j] == b[j];
      }
      forall x | x in a ensures x !in b {
        var i :| 0 <= i < |a| && a[i] == x;
        forall j | 0 <= j < |b| ensures b[j] != x {
          assert s[i] == a[i] && s[|a| + j] == b[j];
        }
      }
    }
    if Distinct(a) && Distinct(b) && Apart(a, b) {
      forall i, j | 0 <= i < j < |s| ensures s[i] != s[j] {
        if i < |a| && |a| <= j {
          assert a[i] in a && b[j - |a|] in b;
        }
      }
    }
  }

  // ----- the places of one machine -----

  ghost function Indexed(name: string, n: nat): (names: seq<string>)
    ensures |names| == n && forall i :: 0 <= i < n ==> names[i] == name + Decimal(i)
  {
    if n == 0 then [] else Indexed(name, n - 1) + [name + Decimal(n - 1)]
  }

  ghost function Below(place: seq<string>, names: seq<string>): (all: seq<seq<string>>)
    ensures |all| == |names| && forall i :: 0 <= i < |names| ==> all[i] == place + [names[i]]
  {
    if names == [] then [] else Below(place, names[..|names| - 1]) + [place + [names[|names| - 1]]]
  }

  ghost function ResourceNames(gpus: nat, cores: nat, memory: nat): seq<string> {
    Indexed("nvidiagpu", gpus) + Indexed("core", cores) + Indexed("memory", memory)
  }

  ghost function Block(info: NodeInfo, subnets: nat, nodeCount: nat): (all: seq<seq<string>>)
    ensures |all| >= 2
  {
    var place := PlaceOf(info, subnets, nodeCount);
    [[place[0]], place] + Below(place, ResourceNames(GpuCount(info), CoreCount(info), MemoryCount(info)))
  }

  lemma {:induction false} PlacesAppended(all: seq<seq<string>>, p: nat, k: Kind, n: nat)
    requires p < |all|
    ensures PlaceResources(all, p, k, n) == all + Below(all[p], Indexed(k.name, n))
  {
    if n > 0 {
      PlacesAppended(all, p, k, n - 1);
      assert Indexed(k.name, n)[..n - 1] == Indexed(k.name, n - 1);
    }
  }

  lemma BelowPlus(place: seq<string>, a: seq<string>, b: seq<string>)
    ensures Below(place, a + b) == Below(place, a) + Below(place, b)
  {
  }

  lemma AllAppended(all: seq<seq<string>>, p: nat, gpus: nat, cores: nat, memory: nat)
    requires p < |all|
    ensures PlaceAll(all, p, gpus, cores, memory) == all + Below(all[p], ResourceNames(gpus, cores, memory))
  {
    var place, a, b, c := all[p], Indexed("nvidiagpu", gpus), Indexed("core", cores), Indexed("memory", memory);
    PlacesAppended(all, p, GPU, gpus);
    PlacesAppended(all + Below(place, a), p, CORE, cores);
    PlacesAppended(all + Below(place, a) + Below(place, b), p, MEMORY, memory);
    BelowPlus(place, a, b);
    BelowPlus(place, a + b, c);
    Regroup(all, Below(place, a), Below(place, b), Below(place, c));
  }

  lemma Regroup<T>(a: seq<T>, b: seq<T>, c: seq<T>, d: seq<T>)
    ensures a + b + c + d == a + (b + c + d)
  {
  }

  lemma BlockAppended(all: seq<seq<string>>, info: NodeInfo, subnets: nat, nodeCount: nat)
    ensures PlaceMachine(all, info, subnets, nodeCount) == all + Block(info, subnets, nodeCount)
  {
    var place := PlaceOf(info, subnets, nodeCount);
    var below := Below(place, ResourceNames(GpuCount(info), CoreCount(info), MemoryCount(info)));
    AllAppended(PlaceNode(all, info, subnets, nodeCount), |all| + 1, GpuCount(info), CoreCount(info), MemoryCount(info));
    Regroup(all, [[place[0]]], [place], below);
    assert [[place[0]]] + [place] == [[place[0]], place];
  }

  // ----- within one machine all places differ -----

  lemma IndexedDistinct(name: string, n: nat)
    requires !EndsInDigit(name)
    ensures Distinct(Indexed(name, n))
  {
    forall i: nat, j: nat | i < j < n ensures name + Decimal(i) != name + Decimal(j) {
      if name + Decimal(i) == name + Decimal(j) {
        IndexedNameInjective(name, i, name, j);
      }
    }
  }

  lemma IndexedApart(a: string, m: nat, b: string, n: nat)
    requires a != b && !EndsInDigit(a) && !EndsInDigit(b)
    ensures Apart(Indexed(a, m), Indexed(b, n))
  {
    forall i: nat, j: nat | i < m && j < n ensures a + Decimal(i) != b + Decimal(j) {
      if a + Decimal(i) == b + Decimal(j) {
        IndexedNameInjective(a, i, b, j);
      }
    }
  }

  lemma ApartPlus<T(!new)>(a: seq<T>, b: seq<T>, c: seq<T>)
    requires Apart(a, c) && Apart(b, c)
    ensures Apart(a + b, c)
  {
  }

  lemma ResourceNamesDistinct(gpus: nat, cores: nat, memory: nat)
    ensures Distinct(ResourceNames(gpus, cores, memory))
  {
    var a, b, c := Indexed("nvidiagpu", gpus), Indexed("core", cores), Indexed("memory", memory);
    IndexedDistinct("nvidiagpu", gpus);
    IndexedDistinct("core", cores);
    IndexedDistinct("memory", memory);
    IndexedApart("nvidiagpu", gpus, "core", cores);
    IndexedApart("nvidiagpu", gpus, "memory", memory);
    IndexedApart("core", cores, "memory", memory);
    DistinctPlus(a, b);
    ApartPlus(a, b, c);
    DistinctPlus(a + b, c);
  }

  lemma BelowDistinct(place: seq<string>, names: seq<string>)
    requires Distinct(names)
    ensures Distinct(Below(place, names))
  {
    var all := Below(place, names);
    forall i, j | 0 <= i < j < |all| ensures all[i] != all[j] {
      assert all[i][|place|] == names[i] && all[j][|place|] == names[j];
    }
  }

  lemma HeadApart(place: seq<string>, names: seq<string>)
    requires |place| == 2
    ensures Distinct([[place[0]], place]) && Apart([[place[0]], place], Below(place, names))
  {
    forall x | x in Below(place, names) ensures |x| == 3 {
      var i :| 0 <= i < |names| && Below(place, names)[i] == x;
    }
  }

  lemma BlockDistinct(info: NodeInfo, subnets: nat, nodeCount: nat)
    ensures Distinct(Block(info, subnets, nodeCount))
  {
    var place := PlaceOf(info, subnets, nodeCount);
    var names := ResourceNames(GpuCount(info), CoreCount(info), MemoryCount(info));
    ResourceNamesDistinct(GpuCount(info), CoreCount(info), MemoryCount(info));
    BelowDistinct(place, names);
    HeadApart(place, names);
    DistinctPlus([[place[0]], place], Below(place, names));
  }

  lemma BlockHeads(info: NodeInfo, subnets: nat, nodeCount: nat)
    ensures forall x :: x in Block(info, subnets, nodeCount) ==> x != [] && x[0] == Zone(info) + Decimal(subnets)
  {
    var place := PlaceOf(info, subnets, nodeCount);
    BelowHeads(place, ResourceNames(GpuCount(info), CoreCount(info), MemoryCount(info)));
  }

  lemma BelowHeads(place: seq<string>, names: seq<string>)
    requires place != []
    ensures forall x :: x in Below(place, names) ==> x != [] && x[0] == place[0]
  {
    forall x | x in Below(place, names) ensures x != [] && x[0] == place[0] {
      var i :| 0 <= i < |names| && Below(place, names)[i] == x;
    }
  }

  // ----- the subnet names decide -----

  ghost function SubnetNames(infos: seq<NodeInfo>, skipLabel: string): seq<string> {
    if infos == [] then []
    else
      var front, last := infos[..|infos| - 1], infos[|infos| - 1];
      SubnetNames(front, skipLabel) + if Included(last, skipLabel) then [Zone(last) + Decimal(SubnetCount(front, skipLabel))] else []
  }

  // Every place but the root's starts with a subnet name, and every subnet name is a place.
  ghost predicate HeadsAre(all: seq<seq<string>>, subnets: seq<string>) {
    && (forall x :: x in all ==> x == [] || x[0] in subnets)
    && (forall s :: s in subnets ==> [s] in all)
  }

  lemma BlockAdds(all: seq<seq<string>>, names: seq<string>, info: NodeInfo, subnets: nat, nodeCount: nat)
    requires HeadsAre(all, names) && (Distinct(all) <==> Distinct(names))
    ensures var s := Zone(info) + Decimal(subnets); var more := all + Block(info, subnets, nodeCount);
      HeadsAre(more, names + [s]) && (Distinct(more) <==> Distinct(names + [s]))
  {
    var s, block := Zone(info) + Decimal(subnets), Block(info, subnets, nodeCount);
    BlockDistinct(info, subnets, nodeCount);
    BlockHeads(info, subnets, nodeCount);
    DistinctPlus(all, block);
    DistinctPlus(names, [s]);
    assert block[0] == [s];
    if s in names {
      assert [s] in all && [s] in block;
      assert !Apart(all, block);
      assert !Apart(names, [s]);
    } else {
      assert Apart(all, block);
      assert Apart(names, [s]);
    }
  }

  lemma {:induction false} PlacesDistinctIff(infos: seq<NodeInfo>, skipLabel: string)
    ensures HeadsAre(Places(infos, skipLabel), SubnetNames(infos, skipLabel))
    ensures Distinct(Places(infos, skipLabel)) <==> Distinct(SubnetNames(infos, skipLabel))
  {
    if infos != [] {
      var front, last := infos[..|infos| - 1], infos[|infos| - 1];
      PlacesDistinctIff(front, skipLabel);
      if Included(last, skipLabel) {
        var subnets := SubnetCount(front, skipLabel);
        BlockAppended(Places(front, skipLabel), last, subnets, |front|);
        BlockAdds(Places(front, skipLabel), SubnetNames(front, skipLabel), last, subnets, |front|);
        assert Places(infos, skipLabel) == Places(front, skipLabel) + Block(last, subnets, |front|);
        assert SubnetNames(infos, skipLabel) == SubnetNames(front, skipLabel) + [Zone(last) + Decimal(subnets)];
      } else {
        assert SubnetNames(infos, skipLabel) == SubnetNames(front, skipLabel);
      }
    }
  }

  ghost predicate DistinctPaths(nodes: seq<Node>) {
    forall i, j :: 0 <= i < j < |nodes| ==> nodes[i].path != nodes[j].path
  }

  lemma SamePath(nodes: seq<Node>, all: seq<seq<string>>, i: nat, j: nat)
    requires Placed(nodes, all) && i < |nodes| && j < |nodes|
    ensures nodes[i].path == nodes[j].path <==> all[i] == all[j]
  {
    RootPlain();
    PlacedAt(nodes, all, i);
    PlacedAt(nodes, all, j);
    PlacePathIs(all[i]);
    PlacePathIs(all[j]);
    PathsDiffer(ROOT_NAME, all[i], all[j]);
  }

  lemma PathsAsPlaces(nodes: seq<Node>, all: seq<seq<string>>)
    requires Placed(nodes, all)
    ensures DistinctPaths(nodes) <==> Distinct(all)
  {
    if Distinct(all) {
      forall i, j | 0 <= i < j < |nodes| ensures nodes[i].path != nodes[j].path {
        SamePath(nodes, all, i, j);
      }
    }
    if DistinctPaths(nodes) {
      forall i, j | 0 <= i < j < |nodes| ensures all[i] != all[j] {
        SamePath(nodes, all, i, j);
      }
    }
  }

  // Given names without slashes, the paths of all vertices are pairwise distinct exactly when the subnet
  // names are; node names and resources never matter.
  lemma PathsDistinctIff(infos: seq<NodeInfo>, skipLabel: string)
    requires AllSlashFree(infos)
    ensures DistinctPaths(Built(infos, skipLabel).nodes) <==> Distinct(SubnetNames(infos, skipLabel))
  {
    PlacesDistinctIff(infos, skipLabel);
    BuiltIsTree(infos, skipLabel);
    PathsAsPlaces(Built(infos, skipLabel).nodes, Places(infos, skipLabel));
  }

  lemma {:induction false} SubnetNameAt(infos: seq<NodeInfo>, skipLabel: string, i: nat)
    requires i < |infos| && Included(infos[i], skipLabel)
    ensures |SubnetNames(infos, skipLabel)| == SubnetCount(infos, skipLabel)
    ensures SubnetCount(infos[..i], skipLabel) < SubnetCount(infos, skipLabel)
    ensures SubnetNames(infos, skipLabel)[SubnetCount(infos[..i], skipLabel)]
         == Zone(infos[i]) + Decimal(SubnetCount(infos[..i], skipLabel))
  {
    var n := |infos| - 1;
    var front := infos[..n];
    SubnetNamesSize(front, skipLabel);
    if i < n {
      SubnetNameAt(front, skipLabel, i);
      assert front[..i] == infos[..i];
    }
  }

  lemma {:induction false} SubnetNamesSize(infos: seq<NodeInfo>, skipLabel: string)
    ensures |SubnetNames(infos, skipLabel)| == SubnetCount(infos, skipLabel)
  {
    if infos != [] {
      SubnetNamesSize(infos[..|infos| - 1], skipLabel);
    }
  }

  ghost predicate NumberedBelow(s: string, n: nat) {
    exists z, c: nat :: c < n && !EndsInDigit(z) && s == z + Decimal(c)
  }

  // Zone labels that do not end in a digit are enough.
  lemma {:induction false} PlainZones(infos: seq<NodeInfo>, skipLabel: string)
    requires forall i :: 0 <= i < |infos| ==> !EndsInDigit(Zone(infos[i]))
    ensures Distinct(SubnetNames(infos, skipLabel))
    ensures forall s :: s in SubnetNames(infos, skipLabel) ==> NumberedBelow(s, SubnetCount(infos, skipLabel))
  {
    if infos != [] {
      var front, last := infos[..|infos| - 1], infos[|infos| - 1];
      PlainZones(front, skipLabel);
      if Included(last, skipLabel) {
        var names, n := SubnetNames(front, skipLabel), SubnetCount(front, skipLabel);
        var s := Zone(last) + Decimal(n);
        if s in names {
          assert NumberedBelow(s, n);
          var z, c: nat :| c < n && !EndsInDigit(z) && s == z + Decimal(c);
          IndexedNameInjective(z, c, Zone(last), n);
        }
        DistinctPlus(names, [s]);
      }
    }
  }

  lemma SameText()
    ensures "a1" + Decimal(2) == "a" + Decimal(12)
  {
    assert Decimal(2) == "2" && Decimal(1) == "1" && Decimal(12) == "12";
  }

  // They are not necessary, but without them paths can clash: zone "a1" on the third included node
  // and zone "a" on the thirteenth both name their subnet "a12".
  lemma ZonesClash(infos: seq<NodeInfo>, skipLabel: string, i: nat, j: nat)
    requires AllSlashFree(infos) && i < j < |infos| && Included(infos[i], skipLabel) && Included(infos[j], skipLabel)
    requires Zone(infos[i]) == "a1" && SubnetCount(infos[..i], skipLabel) == 2
    requires Zone(infos[j]) == "a" && SubnetCount(infos[..j], skipLabel) == 12
    ensures !DistinctPaths(Built(infos, skipLabel).nodes)
  {
    SubnetNameAt(infos, skipLabel, i);
    SubnetNameAt(infos, skipLabel, j);
    SameText();
    assert SubnetNames(infos, skipLabel)[2] == SubnetNames(infos, skipLabel)[12];
    PathsDistinctIff(infos, skipLabel);
  }

  // Thirteen nodes, the third one in zone "a1" and all others in zone "a".
  function ThirteenNodes(): (infos: seq<NodeInfo>)
    ensures |infos| == 13
  {
    seq(13, i requires 0 <= i < 13 =>
      NodeInfo("n" + Decimal(i), map[ZONE_LABEL := if i == 2 then "a1" else "a"], false, 0, 0, None, []))
  }

  lemma {:induction false} AllCounted(infos: seq<NodeInfo>, skipLabel: string)
    requires forall i :: 0 <= i < |infos| ==> Included(infos[i], skipLabel)
    ensures SubnetCount(infos, skipLabel) == |infos|
  {
    if infos != [] {
      AllCounted(infos[..|infos| - 1], skipLabel);
    }
  }

  lemma NodeOfThirteen(i: nat)
    requires i < 13
    ensures var info := ThirteenNodes()[i]; Included(info, "") && SlashFree(info) && Zone(info) == if i == 2 then "a1" else "a"
  {
    DecimalValue(i);
  }

  // Two of them have the same path in the built graph.
  lemma ThirteenNodesClash()
    ensures AllSlashFree(ThirteenNodes()) && !DistinctPaths(Built(ThirteenNodes(), "").nodes)
  {
    var infos := ThirteenNodes();
    forall i | 0 <= i < 13 ensures Included(infos[i], "") && SlashFree(infos[i]) {
      NodeOfThirteen(i);
    }
    NodeOfThirteen(2);
    NodeOfThirteen(12);
    AllCounted(infos[..2], "");
    AllCounted(infos[..12], "");
    ZonesClash(infos, "", 2, 12);
  }
}
