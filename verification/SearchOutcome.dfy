/** What findNodesThatPassFilters hands on, by node name: the feasible list and the failure-status map. */
module SearchOutcome {
  import opened Collections
  import opened Options
  import opened SearchSteps
  import opened FilterSearch
  import opened GoInt
  import opened SearchBound

  // NodeToStatusMap after the first k results were looked at; a later result overwrites an earlier one.
  ghost function StatusMap(c: Search, results: seq<Option<string>>, k: nat): map<string, string>
    requires k <= |results| == |c.nodes|
  {
    if k == 0 then map[]
    else if results[k - 1] == None then StatusMap(c, results, k - 1)
    else StatusMap(c, results, k - 1)[c.NodeAt(k - 1) := results[k - 1].value]
  }

  method CollectStatuses(c: Search, results: seq<Option<string>>) returns (statuses: map<string, string>)
    requires |results| == |c.nodes|
    ensures statuses == StatusMap(c, results, |results|)
  {
    statuses := map[];
    for i := 0 to |results|
      invariant statuses == StatusMap(c, results, i)
    {
      if results[i].Some? {
        statuses := statuses[c.NodeAt(i) := results[i].value];
      }
    }
  }

  ghost predicate HasList(s: State) {
    0 <= s.counter <= |s.slots| && forall k :: 0 <= k < s.counter ==> s.slots[k].Some?
  }

  function FeasibleNodes(s: State): (names: seq<string>)
    requires HasList(s)
  {
    seq(s.counter, k requires 0 <= k < s.counter => s.slots[k].value)
  }

  // The filter plugins accept the node.
  ghost predicate PassesFilters(c: Search, name: string)
    requires c.Valid()
  {
    exists i: nat :: i < |c.nodes| && c.NodeAt(i) == name && c.verdicts[i] == Fits
  }

  // The branch without filter plugins: the first want nodes counted from the start index.
  // An empty node list with a positive bound divides by zero there, which is a Go panic.
  method TakeUnfiltered(c: Search) returns (feasible: Option<seq<string>>)
    ensures feasible == None <==> c.nodes == [] && c.want > 0
    ensures feasible.Some? ==> |feasible.value| == c.want
    ensures feasible.Some? ==> forall i :: 0 <= i < c.want ==> feasible.value[i] == c.nodes[(c.start + i) % |c.nodes|]
  {
    var taken := [];
    for i := 0 to c.want
      invariant |taken| == i && (i > 0 ==> c.nodes != [])
      invariant forall j :: 0 <= j < i ==> taken[j] == c.NodeAt(j)
    {
      if |c.nodes| == 0 {
        return None;
      }
      taken := taken + [c.NodeAt(i)];
    }
    return Some(taken);
  }

  lemma SameRemainder(a: nat, b: nat, n: nat)
    requires a <= b < a + n && a % n == b % n
    ensures a == b
  {
    var q, r := a / n, b / n;
    assert a == q * n + a % n && b == r * n + b % n;
    assert b - a == (r - q) * n;
    FarMultiple(r - q, n);
  }

  // Each node is one piece: within one search no node is looked at twice.
  lemma NodeAtInjective(c: Search, i: nat, j: nat)
    requires Distinct(c.nodes) && i < |c.nodes| && j < |c.nodes| && c.NodeAt(i) == c.NodeAt(j)
    ensures i == j
  {
    var n := |c.nodes|;
    var x, y := (c.start + i) % n, (c.start + j) % n;
    assert x == y;
    if i <= j {
      SameRemainder(c.start + i, c.start + j, n);
    } else {
      SameRemainder(c.start + j, c.start + i, n);
    }
  }

  // findNodesThatPassFilters without filter plugins: with a percentage in its range and at least one node
  // the result is the nodes wanted, no node twice.
  method FindUnfiltered(nodes: seq<string>, start: nat, profile: Option<int>, global: int, hasExtenderFilters: bool, hasScoring: bool)
    returns (feasible: Option<seq<string>>)
    requires |nodes| <= MAX_INT32
    ensures feasible == None <==> nodes == [] && !hasExtenderFilters && !hasScoring
    ensures feasible.Some? && Configured(profile, global) && Distinct(nodes) ==>
      && Distinct(feasible.value)
      && |feasible.value| == NodesToFind(profile, global, |nodes|, hasExtenderFilters, hasScoring)
      && forall i :: 0 <= i < |feasible.value| ==> feasible.value[i] == nodes[(start + i) % |nodes|]
  {
    var want := NodesToFind(profile, global, |nodes|, hasExtenderFilters, hasScoring);
    var c := Search(nodes, start, want, seq(|nodes|, i => Fits));
    feasible := TakeUnfiltered(c);
    if feasible.Some? && Configured(profile, global) && Distinct(nodes) && nodes != [] {
      NodesToFindRange(profile, global, |nodes|, hasExtenderFilters, hasScoring);
      forall i, j | 0 <= i < j < want ensures feasible.value[i] != feasible.value[j] {
        if c.NodeAt(i) == c.NodeAt(j) {
          NodeAtInjective(c, i, j);
        }
      }
    }
  }

  // Every node is some piece.
  lemma PieceOf(c: Search, v: nat) returns (i: nat)
    requires v < |c.nodes|
    ensures i < |c.nodes| && (c.start + i) % |c.nodes| == v
  {
    var n := |c.nodes|;
    i := (v + n - c.start % n) % n;
    OffsetReaches(c.start, v, n);
  }

  lemma PieceOfNode(c: Search, v: nat) returns (i: nat)
    requires v < |c.nodes|
    ensures i < |c.nodes| && c.NodeAt(i) == c.nodes[v]
  {
    i := PieceOf(c, v);
  }

  lemma OffsetReaches(start: nat, v: nat, n: nat)
    requires v < n
    ensures (start + (v + n - start % n) % n) % n == v
  {
    var r := start % n;
    var q := start / n;
    assert start == q * n + r;
    var i := (v + n - r) % n;
    if v >= r {
      assert v + n - r == 1 * n + (v - r);
      ModAdd(1, v - r, n);
      assert start + i == q * n + v;
      ModAdd(q, v, n);
    } else {
      ModAdd(0, v + n - r, n);
      assert start + i == (q + 1) * n + v;
      ModAdd(q + 1, v, n);
    }
  }

  lemma ModAdd(q: nat, r: nat, n: nat)
    requires r < n
    ensures (q * n + r) % n == r
  {
    var a := q * n + r;
    var p := a / n;
    assert a == p * n + a % n;
    assert (p - q) * n == r - a % n;
    FarMultiple(p - q, n);
  }

  ghost function RefusedBelow(s: State, k: nat): (r: set<nat>)
    requires k <= |s.results|
  {
    set i: nat | i < |s.results| && i < k && s.results[i].Some?
  }

  // The map holds exactly the names of refused nodes, each with its own reason.
  lemma {:induction false} StatusMapMeaning(c: Search, s: State, k: nat, i: nat)
    requires k <= |s.results| == |c.nodes| && Distinct(c.nodes) && i < |c.nodes|
    ensures c.NodeAt(i) in StatusMap(c, s.results, k) <==> i < k && s.results[i].Some?
    ensures i < k && s.results[i].Some? ==> StatusMap(c, s.results, k)[c.NodeAt(i)] == s.results[i].value
  {
    if k > 0 {
      StatusMapMeaning(c, s, k - 1, i);
      if c.NodeAt(i) == c.NodeAt(k - 1) {
        NodeAtInjective(c, i, k - 1);
      }
    }
  }

  // Written out: the reason of piece i is kept under the name of the node that it reaches from the start index.
  lemma StatusOfNode(c: Search, s: State, i: nat)
    requires |s.results| == |c.nodes| && Distinct(c.nodes) && i < |c.nodes|
    ensures var name, statuses := c.nodes[(c.start + i) % |c.nodes|], StatusMap(c, s.results, |s.results|);
      && (name in statuses <==> s.results[i].Some?)
      && (s.results[i].Some? ==> statuses[name] == s.results[i].value)
  {
    StatusMapMeaning(c, s, |s.results|, i);
  }

  lemma {:induction false} StatusMapSize(c: Search, s: State, k: nat)
    requires k <= |s.results| == |c.nodes| && Distinct(c.nodes)
    ensures |StatusMap(c, s.results, k)| == |RefusedBelow(s, k)|
  {
    if k > 0 {
      StatusMapSize(c, s, k - 1);
      StatusMapMeaning(c, s, k - 1, k - 1);
      RefusedStep(s, k);
      if s.results[k - 1].Some? {
        GrowBy(StatusMap(c, s.results, k - 1), c.NodeAt(k - 1), s.results[k - 1].value);
      }
    } else {
      assert RefusedBelow(s, 0) == {};
    }
  }

  lemma GrowBy(m: map<string, string>, name: string, reason: string)
    requires name !in m
    ensures |m[name := reason]| == |m| + 1
  {
    assert m[name := reason].Keys == m.Keys + {name};
  }

  lemma RefusedMembers(s: State, k: nat)
    requires 0 < k <= |s.results|
    ensures RefusedBelow(s, k) == RefusedBelow(s, k - 1) + if s.results[k - 1].Some? then {k - 1} else {}
  {
  }

  lemma RefusedStep(s: State, k: nat)
    requires 0 < k <= |s.results|
    ensures |RefusedBelow(s, k)| == |RefusedBelow(s, k - 1)| + if s.results[k - 1].Some? then 1 else 0
  {
    RefusedMembers(s, k);
    assert k - 1 !in RefusedBelow(s, k - 1);
  }

  // ----- the search, seen by name -----

  // The list and the map that a finished search hands on.
  lemma FeasibleNames(c: Search, steps: seq<Step>, s: State) returns (who: seq<nat>)
    requires c.Valid() && Leads(c, steps, s) && Finished(s) && Distinct(c.nodes)
    ensures HasList(s) && |s.pieces| == |c.nodes|
    ensures Distinct(FeasibleNodes(s)) && |FeasibleNodes(s)| <= c.want
    ensures |who| == s.counter && forall k :: 0 <= k < |who| ==>
      who[k] < |c.nodes| && s.pieces[who[k]] == Kept(k) && c.verdicts[who[k]] == Fits && FeasibleNodes(s)[k] == c.NodeAt(who[k])
    ensures forall i: nat :: i < |s.pieces| && s.pieces[i].Kept? ==> i in who
  {
    who := FinishedList(c, steps, s);
    forall k, l | 0 <= k < l < s.counter ensures FeasibleNodes(s)[k] != FeasibleNodes(s)[l] {
      if c.NodeAt(who[k]) == c.NodeAt(who[l]) {
        NodeAtInjective(c, who[k], who[l]);
      }
    }
  }

  lemma ListIsFull(c: Search, steps: seq<Step>, s: State)
    requires c.Valid() && Leads(c, steps, s) && Finished(s)
    ensures HasList(s)
    ensures |s.results| == |c.nodes|
  {
    EveryRunKeepsInv(c, steps, s);
    var who := FinishedList(c, steps, s);
  }

  lemma MapNamesMeaning(c: Search, steps: seq<Step>, s: State, i: nat)
    requires c.Valid() && Leads(c, steps, s) && Finished(s) && Distinct(c.nodes) && i < |c.nodes|
    ensures |s.results| == |s.pieces| == |c.nodes|
    ensures c.NodeAt(i) in StatusMap(c, s.results, |c.nodes|) <==> Failed(c, s, i)
  {
    FinishedResults(c, steps, s, i);
    StatusMapMeaning(c, s, |c.nodes|, i);
  }

  // One piece of a complete search, by name.
  lemma PieceIsPartitioned(c: Search, steps: seq<Step>, s: State, i: nat)
    requires c.Valid() && Leads(c, steps, s) && Finished(s) && Distinct(c.nodes) && i < |c.nodes|
    requires !s.errorSent && !s.stopped && s.counter != c.want
    ensures HasList(s)
    ensures |s.results| == |c.nodes|
    ensures (c.NodeAt(i) in FeasibleNodes(s)) != (c.NodeAt(i) in StatusMap(c, s.results, |c.nodes|))
  {
    SearchIsComplete(c, steps, s);
    FinishedResults(c, steps, s, i);
    FeasibleNamesMeaning(c, steps, s, i);
    MapNamesMeaning(c, steps, s, i);
  }

  // With distinct node names, no error and no outside stop: the wanted number of nodes was found, or
  // every node's name is in exactly one of the feasible list and the status map.
  lemma NamesArePartitioned(c: Search, steps: seq<Step>, s: State, v: nat)
    requires c.Valid() && Leads(c, steps, s) && Finished(s) && Distinct(c.nodes)
    requires !s.errorSent && !s.stopped && v < |c.nodes|
    ensures HasList(s)
    ensures |s.results| == |c.nodes|
    ensures |FeasibleNodes(s)| == c.want ||
      (c.nodes[v] in FeasibleNodes(s)) != (c.nodes[v] in StatusMap(c, s.results, |c.nodes|))
  {
    ListIsFull(c, steps, s);
    if s.counter != c.want {
      var i := PieceOfNode(c, v);
      PieceIsPartitioned(c, steps, s, i);
    }
  }

  lemma FeasibleNamesMeaning(c: Search, steps: seq<Step>, s: State, i: nat)
    requires c.Valid() && Leads(c, steps, s) && Finished(s) && Distinct(c.nodes) && i < |c.nodes|
    ensures HasList(s)
    ensures |s.pieces| == |c.nodes| && (c.NodeAt(i) in FeasibleNodes(s) <==> s.pieces[i].Kept?)
  {
    var who := FeasibleNames(c, steps, s);
    var names := FeasibleNodes(s);
    if s.pieces[i].Kept? {
      var k :| 0 <= k < |who| && who[k] == i;
      assert names[k] == c.NodeAt(i);
    } else if c.NodeAt(i) in names {
      var k :| 0 <= k < |names| && names[k] == c.NodeAt(i);
      NodeAtInjective(c, who[k], i);
    }
  }

  // No node is both listed and recorded as a failure.
  lemma ListAvoidsMap(c: Search, steps: seq<Step>, s: State, name: string)
    requires c.Valid() && Leads(c, steps, s) && Finished(s) && Distinct(c.nodes)
    ensures HasList(s) && |s.results| == |c.nodes|
    ensures name in FeasibleNodes(s) ==> name !in StatusMap(c, s.results, |s.results|) && PassesFilters(c, name)
  {
    ListIsFull(c, steps, s);
    if name in FeasibleNodes(s) {
      var who := FeasibleNames(c, steps, s);
      var k :| 0 <= k < |who| && FeasibleNodes(s)[k] == name;
      MapNamesMeaning(c, steps, s, who[k]);
    }
  }
}
