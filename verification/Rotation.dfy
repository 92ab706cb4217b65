/** The rotating start index of findNodesThatFitPod: which nodes successive scheduling cycles examine. */
module Rotation {
  import opened Collections
  import opened Options
  import opened SearchSteps
  import opened FilterSearch
  import opened GoInt
  import opened SearchBound
  import opened SearchOutcome
  import opened SearchProgress

  // One error-free scheduling cycle over the whole node list.
  datatype Cycle = Cycle(search: Search, steps: seq<Step>, end: State)

  ghost predicate ErrorFree(y: Cycle) {
    && y.search.Valid() && Leads(y.search, y.steps, y.end) && Finished(y.end)
    && !y.end.errorSent && !y.end.stopped
    && Distinct(y.search.nodes) && y.search.nodes != []
  }

  ghost predicate Examined(y: Cycle, i: nat) {
    i < |y.end.pieces| && y.end.pieces[i] != Waiting
  }

  // The pieces were taken in index order (they may still have finished in any order).
  ghost predicate TakenInOrder(y: Cycle) {
    forall i: nat, j: nat :: i < j && Examined(y, j) ==> Examined(y, i)
  }

  // len(feasibleNodes) + len(diagnosis.NodeToStatusMap)
  ghost function Processed(y: Cycle): (p: nat)
    requires ErrorFree(y)
  {
    ListIsFull(y.search, y.steps, y.end);
    |FeasibleNodes(y.end)| + |StatusMap(y.search, y.end.results, |y.end.results|)|
  }

  ghost function NextStart(y: Cycle): (start: nat)
    requires ErrorFree(y)
    ensures start < |y.search.nodes|
  {
    (y.search.start + Processed(y)) % |y.search.nodes|
  }

  ghost function Failures(y: Cycle): set<nat> {
    set i: nat | i < |y.end.pieces| && y.end.pieces[i] == Refused
  }

  lemma FailuresAreResults(y: Cycle)
    requires ErrorFree(y)
    ensures |y.end.results| == |y.end.pieces| == |y.search.nodes|
    ensures RefusedBelow(y.end, |y.end.results|) == Failures(y)
  {
    var c, s := y.search, y.end;
    EveryRunKeepsInv(c, y.steps, s);
    forall i: nat | i < |s.results| ensures s.results[i].Some? <==> s.pieces[i] == Refused {
      FinishedResults(c, y.steps, s, i);
    }
  }

  // The processed nodes are the ones that hold a slot and the ones whose failure was recorded.
  lemma ProcessedCount(y: Cycle)
    requires ErrorFree(y)
    ensures Processed(y) == |Holders(y.end) + Failures(y)|
    ensures y.end.counter == |Holders(y.end)|
    ensures |y.end.pieces| == |y.search.nodes|
  {
    EveryRunKeepsInv(y.search, y.steps, y.end);
    FinishedRoles(y.search, y.end);
    FailuresAreResults(y);
    StatusMapSize(y.search, y.end, |y.end.results|);
    assert Holders(y.end) !! Failures(y);
  }

  lemma AllBelow(a: set<nat>, n: nat)
    requires forall i: nat :: i < n ==> i in a
    ensures |a| >= n
  {
    SubsetSize(Below(n), a);
  }

  // A cycle processes at least the wanted number of nodes, or all of them.
  lemma ProcessesEnough(y: Cycle)
    requires ErrorFree(y)
    ensures Processed(y) >= y.search.want || Processed(y) >= |y.search.nodes|
  {
    ProcessedCount(y);
    SearchIsComplete(y.search, y.steps, y.end);
    if y.end.counter != y.search.want {
      forall i: nat | i < |y.search.nodes| ensures i in Holders(y.end) + Failures(y) {
        assert Passed(y.search, y.end, i) != Failed(y.search, y.end, i);
      }
      AllBelow(Holders(y.end) + Failures(y), |y.search.nodes|);
    }
  }

  // If pieces are taken in order, the processed count covers only examined pieces.
  lemma ProcessedWereExamined(y: Cycle, i: nat)
    requires ErrorFree(y) && TakenInOrder(y) && i < Processed(y)
    ensures Examined(y, i)
  {
    ProcessedCount(y);
    if !Examined(y, i) {
      DoneBelow(y, i);
      SubsetSize(Holders(y.end) + Failures(y), Below(i));
    }
  }

  lemma DoneBelow(y: Cycle, i: nat)
    requires TakenInOrder(y) && !Examined(y, i)
    ensures Holders(y.end) + Failures(y) <= Below(i)
  {
    forall j | j in Holders(y.end) + Failures(y) ensures j in Below(i) {
      assert Examined(y, j);
    }
  }

  // Successive cycles over the same node list, each starting where the previous one left off.
  ghost predicate Chained(cycles: seq<Cycle>, nodes: seq<string>, want: nat) {
    && (forall k :: 0 <= k < |cycles| ==>
         ErrorFree(cycles[k]) && cycles[k].search.nodes == nodes && cycles[k].search.want >= want)
    && (forall k :: 0 <= k < |cycles| - 1 ==> Follows(cycles[k], cycles[k + 1]))
  }

  // sched.nextStartNodeIndex carries over from one cycle to the next.
  ghost predicate Follows(y: Cycle, z: Cycle) {
    ErrorFree(y) && z.search.start == NextStart(y)
  }

  // Some piece that was taken looks at node v.
  ghost predicate VisitsNode(y: Cycle, v: nat) {
    exists i: nat :: Visits(y, v, i)
  }

  ghost predicate Visits(y: Cycle, v: nat, i: nat) {
    v < |y.search.nodes| && Examined(y, i) && y.search.NodeAt(i) == y.search.nodes[v]
  }

  // a % n by repeated subtraction.
  ghost function Rem(a: nat, n: nat): nat
    requires n > 0
  {
    if a < n then a else Rem(a - n, n)
  }

  lemma {:induction false} RemIsModulo(a: nat, n: nat)
    requires n > 0
    ensures Rem(a, n) == a % n
  {
    if a >= n {
      RemIsModulo(a - n, n);
      var q, r := (a - n) / n, (a - n) % n;
      assert a == (q + 1) * n + r;
      ModAdd(q + 1, r, n);
    } else {
      ModAdd(0, a, n);
    }
  }

  lemma {:induction false} RemShift(a: nat, b: nat, n: nat)
    requires n > 0
    ensures Rem(Rem(a, n) + b, n) == Rem(a + b, n)
  {
    if a >= n {
      RemShift(a - n, b, n);
    }
  }

  // Start indices and processed counts of successive cycles over n nodes.
  ghost predicate Rolling(starts: seq<nat>, counts: seq<nat>, n: nat, want: nat) {
    && n > 0 && |starts| == |counts|
    && (forall k :: 0 <= k < |counts| ==> counts[k] >= want || counts[k] >= n)
    && (forall k :: 0 <= k < |starts| - 1 ==> RollsOn(starts, counts, n, k))
  }

  ghost predicate RollsOn(starts: seq<nat>, counts: seq<nat>, n: nat, k: nat)
    requires n > 0 && k + 1 < |starts| == |counts|
  {
    starts[k + 1] == Rem(starts[k] + counts[k], n)
  }

  // The position at the given distance from starts[k] lies in the window of cycle k or a later one.
  lemma {:induction false} DistanceIsCovered(starts: seq<nat>, counts: seq<nat>, n: nat, want: nat, k: nat, distance: nat)
    returns (j: nat, i: nat)
    requires Rolling(starts, counts, n, want) && k < |starts|
    requires distance < n && distance < (|starts| - k) * want
    ensures j < |starts| && i < counts[j] && Rem(starts[j] + i, n) == Rem(starts[k] + distance, n)
    decreases |starts| - k
  {
    if distance < counts[k] {
      j, i := k, distance;
    } else {
      Drop(|starts| - k, want);
      assert RollsOn(starts, counts, n, k);
      RemShift(starts[k] + counts[k], distance - counts[k], n);
      j, i := DistanceIsCovered(starts, counts, n, want, k + 1, distance - counts[k]);
    }
  }

  lemma Drop(count: int, want: nat)
    ensures count * want == (count - 1) * want + want
  {
  }

  ghost function Starts(cycles: seq<Cycle>): seq<nat> {
    seq(|cycles|, k requires 0 <= k < |cycles| => cycles[k].search.start)
  }

  ghost function Counts(cycles: seq<Cycle>): seq<nat>
    requires forall k :: 0 <= k < |cycles| ==> ErrorFree(cycles[k])
  {
    seq(|cycles|, k requires 0 <= k < |cycles| => Processed(cycles[k]))
  }

  lemma ChainRolls(cycles: seq<Cycle>, nodes: seq<string>, want: nat)
    requires Chained(cycles, nodes, want) && nodes != []
    ensures Rolling(Starts(cycles), Counts(cycles), |nodes|, want)
  {
    forall k | 0 <= k < |cycles| ensures Processed(cycles[k]) >= want || Processed(cycles[k]) >= |nodes| {
      ProcessesEnough(cycles[k]);
    }
    forall k | 0 <= k < |cycles| - 1 ensures RollsOn(Starts(cycles), Counts(cycles), |nodes|, k) {
      FollowsRolls(cycles, nodes, want, k);
    }
  }

  lemma FollowsRolls(cycles: seq<Cycle>, nodes: seq<string>, want: nat, k: nat)
    requires Chained(cycles, nodes, want) && nodes != [] && k < |cycles| - 1
    ensures RollsOn(Starts(cycles), Counts(cycles), |nodes|, k)
  {
    assert Follows(cycles[k], cycles[k + 1]);
    RemIsModulo(cycles[k].search.start + Processed(cycles[k]), |nodes|);
  }

  // No node starves when the pieces of each search are taken in order: cycles that together look for at
  // least as many nodes as there are examine every node.  With want >= 1, n cycles suffice.
  lemma NoNodeStarves(cycles: seq<Cycle>, nodes: seq<string>, want: nat, v: nat)
    requires Chained(cycles, nodes, want) && 0 < want
    requires forall k :: 0 <= k < |cycles| ==> TakenInOrder(cycles[k])
    requires v < |nodes| <= |cycles| * want
    ensures exists k :: 0 <= k < |cycles| && VisitsNode(cycles[k], v)
  {
    ChainRolls(cycles, nodes, want);
    var distance := PieceOf(cycles[0].search, v);
    var j, i := DistanceIsCovered(Starts(cycles), Counts(cycles), |nodes|, want, 0, distance);
    RemIsModulo(cycles[0].search.start + distance, |nodes|);
    WindowIsVisited(cycles[j], i, v);
  }

  lemma WindowIsVisited(y: Cycle, i: nat, v: nat)
    requires ErrorFree(y) && TakenInOrder(y) && i < Processed(y)
    requires Rem(y.search.start + i, |y.search.nodes|) == v
    ensures VisitsNode(y, v)
  {
    ProcessedWereExamined(y, i);
    RemIsModulo(y.search.start + i, |y.search.nodes|);
    assert Visits(y, v, i);
  }

  // ----- pieces taken in any order -----

  // If all nodes but one are wanted, or all, a search can only be cancelled after every piece was taken.
  lemma EveryNodeExamined(y: Cycle, v: nat)
    requires ErrorFree(y) && v < |y.search.nodes| <= y.search.want + 1
    ensures VisitsNode(y, v)
  {
    var i := PieceOf(y.search, v);
    EveryRunKeepsInv(y.search, y.steps, y.end);
    if y.end.pieces[i] == Waiting {
      var j := CancelledByOvershoot(y.search, y.steps, y.end);
      WantedAndTwoMore(y, i, j);
    }
    assert Visits(y, v, i);
  }

  lemma TwoMore(a: set<nat>, i: nat, j: nat)
    requires i !in a && j !in a && i != j
    ensures |a + {i} + {j}| == |a| + 2
  {
  }

  // A piece that was left out and one that overshot lie beside the wanted ones.
  lemma WantedAndTwoMore(y: Cycle, i: nat, j: nat)
    requires ErrorFree(y) && i < |y.end.pieces| && y.end.pieces[i] == Waiting && TookBack(y.end, j)
    ensures y.search.want + 2 <= |y.search.nodes|
  {
    EveryRunKeepsInv(y.search, y.steps, y.end);
    var holders := Holders(y.end);
    assert y.end.pieces[j] == Retracted && i !in holders && j !in holders;
    TwoMore(holders, i, j);
    SubsetSize(holders + {i} + {j}, Below(|y.search.nodes|));
  }

  lemma Follow(c: Search, steps: seq<Step>, s: State, step: Step)
    requires c.Valid() && Leads(c, steps, s) && Enabled(c, s, step)
    ensures Leads(c, steps + [step], Apply(c, s, step))
  {
    var longer := steps + [step];
    assert longer[..|longer| - 1] == steps && longer[|longer| - 1] == step;
  }

  // All nodes fit.
  ghost function AllFit(nodes: seq<string>, start: nat, want: nat): (c: Search)
    ensures c.Valid() && c.nodes == nodes && c.start == start && c.want == want
  {
    Search(nodes, start, want, seq(|nodes|, i => Fits))
  }

  // The k-th piece when piece late is passed over.
  ghost function Skipping(late: nat, k: nat): nat {
    if k < late then k else k + 1
  }

  // The first k of these pieces were kept, one after the other, and nothing else was done.
  ghost predicate KeptFirst(c: Search, s: State, late: nat, k: nat) {
    && |s.pieces| == |s.results| == |c.nodes| && |s.slots| == c.want && s.counter == k
    && !s.cancelled && !s.errorSent && !s.stopped
    && forall i: nat :: i < |s.pieces| ==> KeptOrWaiting(s, late, k, i)
  }

  ghost predicate KeptOrWaiting(s: State, late: nat, k: nat, i: nat)
    requires i < |s.pieces|
  {
    if i != late && i < Skipping(late, k) then s.pieces[i].Kept? else s.pieces[i] == Waiting
  }

  lemma TakeAndAdd(c: Search, steps: seq<Step>, s: State, i: nat) returns (longer: seq<Step>, t: State)
    requires c.Valid() && Leads(c, steps, s) && i < |s.pieces| == |s.results| == |c.nodes|
    requires s.pieces[i] == Waiting && !s.cancelled && c.verdicts[i] == Fits
    ensures Leads(c, longer, t)
    ensures t == s.(counter := s.counter + 1, pieces := s.pieces[i := if s.counter + 1 > c.want then Overshot else Claimed(s.counter)])
  {
    Follow(c, steps, s, Step.Start(i));
    var r := Apply(c, s, Step.Start(i));
    longer, t := steps + [Step.Start(i)] + [Add(i)], Apply(c, r, Add(i));
    Follow(c, steps + [Step.Start(i)], r, Add(i));
    assert r.pieces[i := t.pieces[i]] == s.pieces[i := t.pieces[i]];
  }

  lemma KeepNext(c: Search, steps: seq<Step>, s: State, late: nat, k: nat) returns (longer: seq<Step>, t: State)
    requires c.Valid() && Leads(c, steps, s) && KeptFirst(c, s, late, k)
    requires k < c.want && Skipping(late, k) < |c.nodes| && c.verdicts[Skipping(late, k)] == Fits
    ensures Leads(c, longer, t) && KeptFirst(c, t, late, k + 1)
  {
    var i := Skipping(late, k);
    assert KeptOrWaiting(s, late, k, i);
    var r;
    longer, r := TakeAndAdd(c, steps, s, i);
    Follow(c, longer, r, Write(i));
    longer, t := longer + [Write(i)], Apply(c, r, Write(i));
    var next := k + 1;
    forall j: nat | j < |t.pieces| ensures KeptOrWaiting(t, late, next, j) {
      assert KeptOrWaiting(s, late, k, j);
    }
  }

  lemma {:induction false} KeepMany(c: Search, late: nat, k: nat) returns (steps: seq<Step>, s: State)
    requires c.Valid() && k <= c.want < |c.nodes| && forall i :: 0 <= i < |c.nodes| ==> c.verdicts[i] == Fits
    ensures Leads(c, steps, s) && KeptFirst(c, s, late, k)
  {
    if k == 0 {
      steps, s := [], Initial(c);
      forall j: nat | j < |s.pieces| ensures KeptOrWaiting(s, late, 0, j) {
      }
    } else {
      steps, s := KeepMany(c, late, k - 1);
      steps, s := KeepNext(c, steps, s, late, k - 1);
    }
  }

  // One more piece overshoots and cancels the search, so the late piece is never taken.
  lemma OvershootOnce(c: Search, steps: seq<Step>, s: State, late: nat) returns (longer: seq<Step>, t: State)
    requires c.Valid() && Leads(c, steps, s) && KeptFirst(c, s, late, c.want)
    requires late < |c.nodes| && c.want + 2 <= |c.nodes| && c.verdicts[Skipping(late, c.want)] == Fits
    ensures Leads(c, longer, t) && Finished(t) && !t.errorSent && !t.stopped
    ensures t.counter == c.want && |t.pieces| == |c.nodes| && t.pieces[late] == Waiting
    ensures forall i :: 0 <= i < |t.pieces| ==> t.pieces[i] != Refused
  {
    var i := Skipping(late, c.want);
    assert KeptOrWaiting(s, late, c.want, i);
    var r;
    longer, r := TakeAndAdd(c, steps, s, i);
    Follow(c, longer, r, CancelOnOvershoot(i));
    var u := Apply(c, r, CancelOnOvershoot(i));
    Follow(c, longer + [CancelOnOvershoot(i)], u, Subtract(i));
    longer, t := longer + [CancelOnOvershoot(i)] + [Subtract(i)], Apply(c, u, Subtract(i));
    assert t.pieces == s.pieces[i := Retracted];
    forall j: nat | j < |t.pieces| ensures t.pieces[j].Kept? || t.pieces[j] == Retracted || t.pieces[j] == Waiting {
      assert KeptOrWaiting(s, late, c.want, j);
    }
    assert KeptOrWaiting(s, late, c.want, late);
  }

  // An error-free cycle in which all nodes fit and one piece is never taken.
  lemma SkipPiece(c: Search, late: nat) returns (y: Cycle)
    requires c.Valid() && Distinct(c.nodes) && c.want + 2 <= |c.nodes| && late < |c.nodes|
    requires forall i :: 0 <= i < |c.nodes| ==> c.verdicts[i] == Fits
    ensures ErrorFree(y) && y.search == c && |y.end.pieces| == |c.nodes| && y.end.pieces[late] == Waiting
  {
    var steps, s := KeepMany(c, late, c.want);
    steps, s := OvershootOnce(c, steps, s, late);
    y := Cycle(c, steps, s);
  }

  lemma SkippingCycle(nodes: seq<string>, want: nat, start: nat, v: nat) returns (y: Cycle)
    requires Distinct(nodes) && want + 2 <= |nodes| && v < |nodes|
    ensures ErrorFree(y) && y.search == AllFit(nodes, start, want) && !VisitsNode(y, v)
  {
    var c := AllFit(nodes, start, want);
    var late := PieceOf(c, v);
    y := SkipPiece(c, late);
    MissesNode(y, late, v);
  }

  lemma MissesNode(y: Cycle, late: nat, v: nat)
    requires late < |y.end.pieces| == |y.search.nodes| && y.end.pieces[late] == Waiting && Distinct(y.search.nodes)
    requires (y.search.start + late) % |y.search.nodes| == v
    ensures !VisitsNode(y, v)
  {
    forall i: nat ensures !Visits(y, v, i) {
      if i < |y.search.nodes| {
        SamePiece(y.search, i, late);
      }
    }
  }

  lemma SamePiece(c: Search, i: nat, j: nat)
    requires i < |c.nodes| && j < |c.nodes|
    ensures (c.start + i) % |c.nodes| == (c.start + j) % |c.nodes| ==> i == j
  {
    if (c.start + i) % |c.nodes| == (c.start + j) % |c.nodes| {
      if i <= j {
        SameRemainder(c.start + i, c.start + j, |c.nodes|);
      } else {
        SameRemainder(c.start + j, c.start + i, |c.nodes|);
      }
    }
  }

  lemma AppendCycle(front: seq<Cycle>, y: Cycle, nodes: seq<string>, want: nat)
    requires Chained(front, nodes, want)
    requires ErrorFree(y) && y.search.nodes == nodes && y.search.want >= want
    requires front != [] ==> y.search.start == NextStart(front[|front| - 1])
    ensures Chained(front + [y], nodes, want)
  {
    var cycles := front + [y];
    forall k | 0 <= k < |cycles| - 1 ensures Follows(cycles[k], cycles[k + 1]) {
      if k < |front| - 1 {
        assert Follows(front[k], front[k + 1]);
        assert cycles[k] == front[k] && cycles[k + 1] == front[k + 1];
      } else {
        assert cycles[k] == front[|front| - 1] && cycles[k + 1] == y;
      }
    }
  }

  // Successive error-free cycles from a start index, each wanting exactly this many nodes, that all miss node v.
  ghost predicate Starving(cycles: seq<Cycle>, nodes: seq<string>, want: nat, start: nat, v: nat) {
    && Chained(cycles, nodes, want)
    && (forall k :: 0 <= k < |cycles| ==> cycles[k].search.want == want && !VisitsNode(cycles[k], v))
    && (cycles != [] ==> cycles[0].search.start == start)
  }

  ghost predicate CanStarve(nodes: seq<string>, want: nat, start: nat, v: nat) {
    forall length: nat :: StarvesFor(nodes, want, start, v, length)
  }

  ghost predicate StarvesFor(nodes: seq<string>, want: nat, start: nat, v: nat, length: nat) {
    exists cycles :: |cycles| == length && Starving(cycles, nodes, want, start, v)
  }

  // If two nodes or more are not wanted, any node can be missed by any number of successive cycles.
  lemma {:induction false} OutOfOrderStarves(nodes: seq<string>, want: nat, start: nat, v: nat, length: nat)
    returns (cycles: seq<Cycle>)
    requires Distinct(nodes) && want + 2 <= |nodes| && v < |nodes|
    ensures |cycles| == length && Starving(cycles, nodes, want, start, v)
  {
    if length == 0 {
      cycles := [];
    } else {
      var front := OutOfOrderStarves(nodes, want, start, v, length - 1);
      var y := SkippingCycle(nodes, want, if front == [] then start else NextStart(front[|front| - 1]), v);
      AppendCycle(front, y, nodes, want);
      cycles := front + [y];
    }
  }

  // Exactly when the rotation is fair under every interleaving and for all verdicts:
  // a node can starve if and only if at least two nodes fewer are wanted than there are.
  lemma CanStarveIff(nodes: seq<string>, want: nat, start: nat, v: nat)
    requires Distinct(nodes) && v < |nodes|
    ensures CanStarve(nodes, want, start, v) <==> want + 2 <= |nodes|
  {
    if want + 2 <= |nodes| {
      forall length: nat ensures StarvesFor(nodes, want, start, v, length) {
        var cycles := OutOfOrderStarves(nodes, want, start, v, length);
      }
    } else {
      assert !StarvesFor(nodes, want, start, v, 1) by {
        forall cycles | |cycles| == 1 && Starving(cycles, nodes, want, start, v) ensures false {
          EveryNodeExamined(cycles[0], v);
        }
      }
    }
  }

  // ----- with the bound the program computes -----

  lemma TimesAtLeast(a: nat, b: nat)
    requires b >= 1
    ensures a * b >= a
  {
    assert a * b == a * (b - 1) + a;
  }

  // n cycles over n nodes that look for the computed number of nodes examine every node in order, and
  // a single cycle does in any order if that number leaves out at most one node, as below a hundred nodes.
  lemma ComputedBoundIsFair(cycles: seq<Cycle>, nodes: seq<string>, profile: Option<int>, global: int, filters: bool, scoring: bool, v: nat)
    requires Configured(profile, global) && v < |nodes| <= MAX_INT32
    requires Chained(cycles, nodes, NodesToFind(profile, global, |nodes|, filters, scoring)) && |cycles| >= |nodes|
    requires (forall k :: 0 <= k < |cycles| ==> TakenInOrder(cycles[k])) || (|nodes| < 100 && (filters || scoring))
    ensures exists k :: 0 <= k < |cycles| && VisitsNode(cycles[k], v)
  {
    var want := NodesToFind(profile, global, |nodes|, filters, scoring);
    NodesToFindRange(profile, global, |nodes|, filters, scoring);
    if |nodes| < 100 && (filters || scoring) {
      EveryNodeExamined(cycles[0], v);
    } else {
      TimesAtLeast(|cycles|, want);
      NoNodeStarves(cycles, nodes, want, v);
    }
  }
}
