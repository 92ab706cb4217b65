/** selectHost and the part of schedulePod that decides when to call it. */
module SelectHost {
  import opened Collections
  import opened ScoreHeap
  import opened Reservoir

  datatype Selection =
    | Selected(host: string, top: Scores)
    | EmptyPriorityList
    | Panic  // a Go run-time panic

  ghost function CountTotal(s: Scores, total: int): (n: nat)
    ensures n <= |s|
  {
    if s == [] then 0
    else CountTotal(s[..|s| - 1], total) + if s[|s| - 1].total == total then 1 else 0
  }

  // How many nodes tie for the highest total, given the pop order.
  ghost function Ties(order: Scores): (m: nat)
    requires order != []
    ensures 1 <= m <= |order|
  {
    CountFirst(order);
    CountTotal(order, order[0].total)
  }

  lemma {:induction false} CountFirst(s: Scores)
    requires s != []
    ensures CountTotal(s, s[0].total) >= 1
  {
    if |s| > 1 {
      CountFirst(s[..|s| - 1]);
    }
  }

  // In a non-increasing list the entries with the first total come first.
  lemma {:induction false} TiesAreAPrefix(s: Scores, i: nat)
    requires i < |s| && NonIncreasing(s)
    ensures s[i].total == s[0].total <==> i < CountTotal(s, s[0].total)
  {
    if |s| > 1 {
      var front := s[..|s| - 1];
      assert NonIncreasing(front);
      if i < |front| {
        TiesAreAPrefix(front, i);
      } else {
        TiesAreAPrefix(front, i - 1);
        if s[i].total == s[0].total {
          assert s[i - 1].total == s[0].total;
        }
      }
    }
  }

  ghost function Min(a: int, b: int): int {
    if a < b then a else b
  }

  // The list selectHost returns: the pop order with the picked tied node moved to the front, cut to count.
  ghost function Chosen(list: Scores, count: int, draws: seq<nat>): (top: Scores)
    requires list != [] && count >= 1 && |draws| >= |list| - 1
    ensures |top| == Min(count, |list|)
  {
    Place(PopOrder(list), count, draws)
  }

  ghost function Place(order: Scores, count: int, draws: seq<nat>): (top: Scores)
    requires order != [] && count >= 1 && |draws| >= Ties(order) - 1
    ensures |top| == Min(count, |order|)
  {
    Swap(order, 0, Pick(draws[..Ties(order) - 1]))[..Min(count, |order|)]
  }

  ghost function Outcome(list: Scores, count: int, draws: seq<nat>): Selection
    requires |draws| >= |list| - 1
  {
    if list == [] then EmptyPriorityList
    else if |list| == 1 || count < 1 then Panic
    else var top := Chosen(list, count, draws); Selected(top[0].name, top)
  }

  method SelectHost(list: array<NodePluginScores>, count: int, draws: seq<nat>) returns (r: Selection)
    requires InRange(draws) && |draws| >= list.Length - 1
    modifies list
    ensures multiset(list[..]) == multiset(old(list[..]))
    ensures r == Outcome(old(list[..]), count, draws)
    ensures r == EmptyPriorityList <==> old(list[..]) == []
    ensures r == Panic <==> list.Length == 1 || (list.Length > 1 && count < 1)
    ensures r.Selected? ==> r.top != [] && r.host == r.top[0].name
  {
    if list.Length == 0 {
      return EmptyPriorityList;
    }
    if count < 0 {
      return Panic;  // make with a negative capacity
    }
    ghost var order := PopOrder(list[..]);
    PopOrderSorts(list[..]);
    HeapifyKeeps(list[..], list.Length / 2);
    Init(list);
    if list.Length == 1 {
      var _ := PopKeeping(list, 1);
      return Panic;  // the second heap.Pop, on an empty heap, indexes position -1
    }
    var sorted, selectedIndex := PopTop(list, count, draws);
    assert [order[0]] == order[..1] && order[..1][..0] == [];
    CollectMeaning(order, 1, count, draws, 1, 0);
    var top := Finish(sorted, selectedIndex, count);
    if |top| == 0 {
      return Panic;
    }
    Placed(order, sorted, selectedIndex, count, draws);
    return Selected(top[0].name, top);
  }

  // selectHost's loop: pop until all the tied nodes were seen and count nodes are there, or the heap is empty.
  method PopTop(list: array<NodePluginScores>, count: nat, draws: seq<nat>) returns (sorted: Scores, selectedIndex: nat)
    requires list.Length >= 2 && |draws| >= list.Length - 1
    modifies list
    ensures multiset(list[..]) == multiset(old(list[..]))
    ensures (sorted, selectedIndex) == CollectAll(Drain(old(list[..]), list.Length), count, draws)
  {
    ghost var order := Drain(list[..], list.Length);
    ghost var result := CollectAll(order, count, draws);
    var n := list.Length;
    var cntOfMaxScore := 1;
    selectedIndex := 0;
    var first := PopKeeping(list, n);
    assert order[1..] == Drain(list[..], n - 1);
    sorted := [first];
    var ns := PopKeeping(list, n - 1);
    n := n - 2;
    while true
      invariant 0 <= n <= list.Length && sorted != []
      invariant 1 <= cntOfMaxScore && cntOfMaxScore + n <= |draws|
      invariant Collect(sorted, [ns] + Drain(list[..], n), count, draws, cntOfMaxScore, selectedIndex) == result
      invariant multiset(list[..]) == multiset(old(list[..]))
      decreases n
    {
      assert ([ns] + Drain(list[..], n))[1..] == Drain(list[..], n);
      if ns.total != sorted[0].total && |sorted| == count {
        break;
      }
      if ns.total == sorted[0].total {
        cntOfMaxScore := cntOfMaxScore + 1;
        if draws[cntOfMaxScore - 2] == 0 {
          selectedIndex := cntOfMaxScore - 1;
        }
      }
      sorted := sorted + [ns];
      if n == 0 {
        break;
      }
      ns := PopKeeping(list, n);
      n := n - 1;
    }
  }

  // What the loop makes of the nodes still to come.
  ghost function Collect(sorted: Scores, pending: Scores, count: nat, draws: seq<nat>, cnt: nat, index: nat): (Scores, nat)
    requires sorted != [] && 1 <= cnt && cnt + |pending| <= |draws| + 1
    decreases |pending|
  {
    if pending == [] then (sorted, index)
    else
      var ns := pending[0];
      if ns.total == sorted[0].total then
        Collect(sorted + [ns], pending[1..], count, draws, cnt + 1, if draws[cnt - 1] == 0 then cnt else index)
      else if |sorted| == count then (sorted, index)
      else Collect(sorted + [ns], pending[1..], count, draws, cnt, index)
  }

  ghost function CollectAll(order: Scores, count: nat, draws: seq<nat>): (Scores, nat)
    requires order != [] && |order| <= |draws| + 1
  {
    Collect([order[0]], order[1..], count, draws, 1, 0)
  }

  lemma CountStep(s: Scores, x: NodePluginScores, total: int)
    ensures CountTotal(s + [x], total) == CountTotal(s, total) + if x.total == total then 1 else 0
  {
    assert (s + [x])[..|s|] == s;
  }

  lemma PickStep(draws: seq<nat>, k: nat)
    requires 0 < k <= |draws|
    ensures Pick(draws[..k]) == if draws[k - 1] == 0 then k else Pick(draws[..k - 1])
  {
    assert draws[..k][..k - 1] == draws[..k - 1];
  }

  // The loop stops with all the tied nodes collected and the picked one known.
  lemma {:induction false} CollectMeaning(order: Scores, k: nat, count: nat, draws: seq<nat>, cnt: nat, index: nat)
    requires 1 <= k <= |order| <= |draws| + 1 && NonIncreasing(order)
    requires 1 <= cnt <= k && cnt == CountTotal(order[..k], order[0].total) && index == Pick(draws[..cnt - 1])
    ensures var (sorted, selected) := Collect(order[..k], order[k..], count, draws, cnt, index);
      && sorted != [] && sorted <= order && (|sorted| == |order| || |sorted| == count)
      && Ties(order) <= |sorted| && selected == Pick(draws[..Ties(order) - 1])
    decreases |order| - k
  {
    if k == |order| {
      assert order[..k] == order;
    } else {
      var ns := order[k];
      assert order[..k] + [ns] == order[..k + 1] && order[k..][1..] == order[k + 1..];
      CountStep(order[..k], ns, order[0].total);
      if ns.total == order[0].total {
        PickStep(draws, cnt);
        CollectMeaning(order, k + 1, count, draws, cnt + 1, if draws[cnt - 1] == 0 then cnt else index);
      } else if k == count {
        StopsAfterTies(order, order[..k]);
      } else {
        CollectMeaning(order, k + 1, count, draws, cnt, index);
      }
    }
  }

  method PopKeeping(a: array<NodePluginScores>, n: nat) returns (x: NodePluginScores)
    requires 0 < n <= a.Length
    modifies a
    ensures multiset(a[..]) == multiset(old(a[..]))
    ensures [x] + Drain(a[..], n - 1) == Drain(old(a[..]), n)
  {
    SwapKeeps(a[..], 0, n - 1);
    DownKeeps(Swap(a[..], 0, n - 1), 0, n - 1);
    x := Pop(a, n);
  }

  // Move the picked node to the front and cut the list to count.
  method Finish(popped: Scores, index: nat, count: nat) returns (top: Scores)
    requires index < |popped|
    ensures top == Swap(popped, 0, index)[..Min(count, |popped|)]
  {
    top := popped;
    if index != 0 {
      var previous := top[0];
      top := top[0 := top[index]];
      top := top[index := previous];
    }
    assert top == Swap(popped, 0, index);
    if |top| > count {
      top := top[..count];
    }
  }

  // Doing that on the popped part alone gives the same list.
  lemma Placed(order: Scores, popped: Scores, index: nat, count: int, draws: seq<nat>)
    requires popped <= order && popped != [] && count >= 1 && |popped| >= Min(count, |order|)
    requires |draws| >= Ties(order) - 1 && Ties(order) <= |popped| && index == Pick(draws[..Ties(order) - 1])
    ensures Swap(popped, 0, index)[..Min(count, |popped|)] == Place(order, count, draws)
  {
    assert popped == order[..|popped|];
    assert Swap(popped, 0, index) == Swap(order, 0, index)[..|popped|];
  }

  // When the loop stops with these nodes popped, all the tied nodes are among them.
  lemma StopsAfterTies(order: Scores, popped: Scores)
    requires popped <= order && popped != [] && NonIncreasing(order)
    requires |popped| == |order| || order[|popped|].total != order[0].total
    ensures CountTotal(popped, order[0].total) == Ties(order)
    decreases |order|
  {
    if |popped| < |order| {
      var front := order[..|order| - 1];
      assert NonIncreasing(front) && front[0] == order[0];
      assert order[|order| - 1].total != order[0].total;
      StopsAfterTies(front, popped);
    } else {
      assert popped == order;
    }
  }

  // ----- what the returned list means -----

  lemma SwapAmongTies(order: Scores, j: nat)
    requires j < |order| && NonIncreasing(order) && order[j].total == order[0].total
    ensures NonIncreasing(Swap(order, 0, j))
  {
  }

  lemma CutSorted(placed: Scores, k: nat)
    requires k <= |placed| && NonIncreasing(placed)
    ensures NonIncreasing(placed[..k])
    ensures k > 0 ==> forall x, y :: x in placed[..k] && y in placed[k..] ==> y.total <= x.total
  {
    forall x, y | x in placed[..k] && y in placed[k..] ensures y.total <= x.total {
      var i :| 0 <= i < k && placed[i] == x;
      var j :| 0 <= j < |placed| - k && placed[k..][j] == y;
      assert y == placed[k + j];
    }
  }

  lemma PlacedIsSorted(list: Scores, draws: seq<nat>) returns (placed: Scores)
    requires list != [] && |draws| >= |list| - 1
    ensures placed == Swap(PopOrder(list), 0, Pick(draws[..Ties(PopOrder(list)) - 1]))
    ensures NonIncreasing(placed) && multiset(placed) == multiset(list) && |placed| == |list|
  {
    var order := PopOrder(list);
    var j := Pick(draws[..Ties(order) - 1]);
    PopOrderSorts(list);
    TiesAreAPrefix(order, j);
    SwapAmongTies(order, j);
    SwapKeeps(order, 0, j);
    placed := Swap(order, 0, j);
  }

  // selectHost's promise: min(count, n) of the entries, from the highest total down, such that
  // none of the entries left out beats any returned one.
  lemma ChosenMeaning(list: Scores, count: int, draws: seq<nat>) returns (left: Scores)
    requires list != [] && count >= 1 && |draws| >= |list| - 1
    ensures var top := Chosen(list, count, draws);
      && |top| == Min(count, |list|)
      && multiset(list) == multiset(top) + multiset(left)
      && NonIncreasing(top)
      && (forall x, y :: x in top && y in left ==> y.total <= x.total)
      && IsBest(list, top[0])
  {
    var placed := PlacedIsSorted(list, draws);
    var k := Min(count, |list|);
    SplitEntries(placed, k);
    CutSorted(placed, k);
    left := placed[k..];
    FirstIsBest(list, placed);
  }

  // The picked tied node and the first one change places; every other entry stays where it was popped.
  lemma ChosenAt(list: Scores, count: int, draws: seq<nat>, k: nat)
    requires list != [] && count >= 1 && |draws| >= |list| - 1 && k < count && k < |list|
    ensures var order := PopOrder(list);
      var i := Pick(draws[..Ties(order) - 1]);
      i < |order| && k < |Chosen(list, count, draws)|
      && Chosen(list, count, draws)[k] == if k == 0 then order[i] else if k == i then order[0] else order[k]
  {
  }

  lemma FirstIsBest(list: Scores, placed: Scores)
    requires placed != [] && multiset(placed) == multiset(list) && NonIncreasing(placed)
    ensures IsBest(list, placed[0])
  {
    assert placed[0] in multiset(placed);
    forall x | x in list ensures x.total <= placed[0].total {
      assert x in multiset(list);
      var i :| 0 <= i < |placed| && placed[i] == x;
    }
  }

  ghost predicate IsBest(list: Scores, e: NodePluginScores) {
    e in list && forall x :: x in list ==> x.total <= e.total
  }

  ghost function Best(list: Scores): set<NodePluginScores> {
    set e | e in list && IsBest(list, e)
  }

  lemma DistinctByCount(a: Scores, b: Scores)
    requires multiset(a) == multiset(b) && Distinct(a)
    ensures Distinct(b)
  {
    forall i, j | 0 <= i < j < |b| ensures b[i] != b[j] {
      if b[i] == b[j] {
        RepeatedTwice(b, i, j);
        DistinctOnce(a, b[i]);
      }
    }
  }

  lemma BestInOrder(list: Scores, e: NodePluginScores)
    requires list != []
    ensures e in Best(list) <==> e in PopOrder(list)[..Ties(PopOrder(list))]
  {
    var order := PopOrder(list);
    var tied := order[..Ties(order)];
    PopOrderSorts(list);
    FirstIsBest(list, order);
    if e in tied {
      var i :| 0 <= i < Ties(order) && order[i] == e;
      TiesAreAPrefix(order, i);
      assert e in multiset(order) && e in multiset(list);
    }
    if e in Best(list) {
      assert e in multiset(list) && e in multiset(order) && order[0] in multiset(order) && order[0] in multiset(list);
      var i :| 0 <= i < |order| && order[i] == e;
      TiesAreAPrefix(order, i);
      assert tied[i] == e;
    }
  }

  // The best entries are the first Ties entries of the pop order.
  lemma BestComeFirst(list: Scores)
    requires list != [] && Distinct(list)
    ensures Distinct(PopOrder(list))
    ensures |Best(list)| == Ties(PopOrder(list))
    ensures forall e :: e in Best(list) <==> e in PopOrder(list)[..Ties(PopOrder(list))]
  {
    var order := PopOrder(list);
    PopOrderSorts(list);
    DistinctByCount(list, order);
    forall e ensures e in Best(list) <==> e in order[..Ties(order)] {
      BestInOrder(list, e);
    }
    DistinctSize(order[..Ties(order)]);
    assert Best(list) == Members(order[..Ties(order)]);
  }

  // The draw sequences on which selectHost answers e.
  ghost function Choosing(list: Scores, count: int, e: NodePluginScores): set<seq<nat>>
    requires list != [] && count >= 1
  {
    set d | d in AllDraws(|list|) && |d| == |list| - 1 && Chosen(list, count, d)[0] == e
  }

  lemma ChosenHead(list: Scores, count: int, d: seq<nat>, j: nat)
    requires list != [] && count >= 1 && |d| >= |list| - 1
    requires Distinct(PopOrder(list)) && j < |list|
    ensures Chosen(list, count, d)[0] == PopOrder(list)[j] <==> Pick(d[..Ties(PopOrder(list)) - 1]) == j
  {
    var order := PopOrder(list);
    var i := Pick(d[..Ties(order) - 1]);
    assert Chosen(list, count, d)[0] == order[i];
    if i < j {
      assert order[i] != order[j];
    } else if j < i {
      assert order[j] != order[i];
    }
  }

  lemma ChoosingIsPicking(list: Scores, count: int, e: NodePluginScores, j: nat)
    requires list != [] && count >= 1
    requires Distinct(PopOrder(list)) && j < Ties(PopOrder(list)) <= |list| && PopOrder(list)[j] == e
    ensures Choosing(list, count, e) == PickingEarly(|list|, Ties(PopOrder(list)), j)
  {
    var choosing, picking := Choosing(list, count, e), PickingEarly(|list|, Ties(PopOrder(list)), j);
    forall d ensures d in choosing <==> d in picking {
      if |d| == |list| - 1 {
        ChosenHead(list, count, d, j);
      }
    }
  }

  // Over all the sequences rand.Intn can answer, every best node is selected equally often.
  lemma HostIsUniform(list: Scores, count: int, e: NodePluginScores)
    requires Distinct(list) && IsBest(list, e) && count >= 1
    ensures |AllDraws(|list|)| == Factorial(|list|)
    ensures |Best(list)| * |Choosing(list, count, e)| == Factorial(|list|)
  {
    var order := PopOrder(list);
    var n, m := |list|, Ties(order);
    AllDrawsSize(n);
    BestComeFirst(list);
    assert e in Best(list);
    var j :| 0 <= j < m && order[j] == e;
    ChoosingIsPicking(list, count, e, j);
    EarlyPickIsUniform(n, m, j);
  }

  // ----- schedulePod -----

  const NUMBER_OF_HIGHEST_SCORED_NODES_TO_REPORT := 3

  datatype Found = FindError | Feasible(nodes: seq<string>)
  datatype ScheduleResult =
    | NoNodesAvailable
    | Failed
    | Unfit
    | Crash
    | Suggested(host: string, evaluated: nat, feasible: nat)

  // prioritizeNodes answers one entry per feasible node, in order, or fails (null here).
  method SchedulePod(snapshotNodes: nat, found: Found, statuses: nat, scored: array?<NodePluginScores>, draws: seq<nat>)
    returns (r: ScheduleResult)
    requires found.Feasible? && scored != null ==>
      && scored.Length == |found.nodes| && |draws| >= |found.nodes| - 1
      && forall i :: 0 <= i < scored.Length ==> scored[i].name == found.nodes[i]
    requires InRange(draws)
    modifies if scored != null then {scored} else {}
    ensures r != Crash
    ensures r == NoNodesAvailable <==> snapshotNodes == 0
    ensures r == Unfit <==> snapshotNodes > 0 && found == Feasible([])
    ensures r == Failed <==> snapshotNodes > 0 && (found == FindError || (|found.nodes| > 1 && scored == null))
    ensures r.Suggested? ==> r.feasible == |found.nodes| && r.evaluated == |found.nodes| + statuses && r.host in found.nodes
    ensures r.Suggested? && r.feasible > 1 ==>
      exists i :: 0 <= i < |found.nodes| && found.nodes[i] == r.host && IsBest(old(scored[..]), old(scored[..])[i])
  {
    if snapshotNodes == 0 {
      return NoNodesAvailable;
    }
    if found == FindError {
      return Failed;
    }
    if |found.nodes| == 0 {
      return Unfit;
    }
    if |found.nodes| == 1 {
      return Suggested(found.nodes[0], 1 + statuses, 1);
    }
    if scored == null {
      return Failed;
    }
    ghost var list := scored[..];
    var selection := SelectHost(scored, NUMBER_OF_HIGHEST_SCORED_NODES_TO_REPORT, draws);
    if !selection.Selected? {
      return Crash;
    }
    ghost var left := ChosenMeaning(list, NUMBER_OF_HIGHEST_SCORED_NODES_TO_REPORT, draws);
    ghost var i :| 0 <= i < |list| && list[i] == selection.top[0];
    return Suggested(selection.host, |found.nodes| + statuses, |found.nodes|);
  }
}
