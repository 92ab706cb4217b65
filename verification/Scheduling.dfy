/** One scheduling cycle from the node list to the suggested host: the search, the extenders' filters,
    the merged scores and the selection, in sequence. */
module Scheduling {
  import opened Collections
  import opened Options
  import opened GoInt
  import opened SearchSteps
  import opened FilterSearch
  import opened SearchOutcome
  import opened ScoreHeap
  import opened Reservoir
  import opened SelectHost
  import Filters = ExtenderFilters
  import Merging = ExtenderScores

  // A search that ran to its end over a list of distinct nodes.
  ghost predicate Searched(c: Search, steps: seq<Step>, s: State) {
    c.Valid() && Leads(c, steps, s) && Finished(s) && Distinct(c.nodes) && Result(c, s)
  }

  // The statuses that the recorded reasons stand for.
  function StatusesOf(reasons: map<string, string>, statusOf: string -> Filters.Status): Filters.Statuses {
    map name | name in reasons :: statusOf(reasons[name])
  }

  ghost predicate Result(c: Search, s: State) {
    HasList(s) && |s.results| == |c.nodes|
  }

  // The nodes that the extenders leave of the search's list.
  ghost function Remaining(s: State, filters: seq<Filters.Extender>): seq<string>
    requires HasList(s)
  {
    Filters.ListFor(filters, FeasibleNodes(s), |filters|)
  }

  // The statuses of the search's failures and of the nodes that the extenders failed.
  ghost function Diagnosis(c: Search, s: State, filters: seq<Filters.Extender>, statusOf: string -> Filters.Status): Filters.Statuses
    requires Result(c, s)
  {
    Filters.StatusesFor(filters, FeasibleNodes(s), StatusesOf(StatusMap(c, s.results, |s.results|), statusOf), |filters|)
  }

  // What prioritizeNodes asks: the extenders, and the score plugins of the framework.
  datatype Scoring = Scoring(extenders: seq<Merging.Extender>, hasPlugins: bool, plugins: seq<string> -> Merging.PluginAnswer)
  {
    // The plugins promise an entry for each node, in order, with an int64 total.
    ghost predicate Valid() {
      forall nodes :: ScoresEach(plugins(nodes), nodes)
    }

    // Without extenders and score plugins nothing is asked.
    ghost predicate Answers(nodes: seq<string>) {
      (extenders != [] || hasPlugins) ==> plugins(nodes).PluginScores?
    }

    // The plugins' total of the i-th node and what the interested extenders add to it.
    ghost function MergedTotal(nodes: seq<string>, i: nat): int
      requires Valid() && Answers(nodes) && i < |nodes|
    {
      if extenders == [] && !hasPlugins then 1
      else
        assert ScoresEach(plugins(nodes), nodes);
        Wrap64(plugins(nodes).scores[i].total + Merging.TotalShare(extenders, nodes[i]))
    }

    ghost predicate IsTop(nodes: seq<string>, i: nat)
      requires Valid() && Answers(nodes) && i < |nodes|
    {
      forall j: nat :: j < |nodes| ==> MergedTotal(nodes, j) <= MergedTotal(nodes, i)
    }

    // The nodes can be scored, and none of them has a larger merged total than the host.
    ghost predicate TopHost(nodes: seq<string>, host: string)
      requires Valid()
    {
      Answers(nodes) && exists i: nat :: i < |nodes| && nodes[i] == host && IsTop(nodes, i)
    }
  }

  ghost predicate ScoresEach(answer: Merging.PluginAnswer, nodes: seq<string>) {
    answer.PluginScores? ==>
      && |answer.scores| == |nodes|
      && forall i :: 0 <= i < |nodes| ==> answer.scores[i].name == nodes[i] && Wrap64(answer.scores[i].total) == answer.scores[i].total
  }

  // A node that the search and the extenders leave is suitable: the filter plugins accept it, no status was recorded
  // for it, and no extender that was asked failed it.
  lemma RemainingIsSuitable(c: Search, steps: seq<Step>, s: State, filters: seq<Filters.Extender>,
                            statusOf: string -> Filters.Status, name: string)
    requires Searched(c, steps, s) && Filters.WellBehaved(filters, FeasibleNodes(s))
    requires !Filters.AnyAborts(filters, FeasibleNodes(s)) && name in Remaining(s, filters)
    ensures PassesFilters(c, name) && name !in Diagnosis(c, s, filters, statusOf)
    ensures Filters.NeverFailed(filters, FeasibleNodes(s), name)
  {
    var list, before := FeasibleNodes(s), StatusesOf(StatusMap(c, s.results, |s.results|), statusOf);
    ListAndMapApart(c, steps, s, statusOf);
    Filters.FailsIff(filters, list, before);
    Filters.FoldPartitions(filters, list, before);
    assert name in Members(Remaining(s, filters)) && name in Members(list);
    ListAvoidsMap(c, steps, s, name);
    Filters.NoStatusNeverFailed(filters, list, before, name);
  }

  lemma ListAndMapApart(c: Search, steps: seq<Step>, s: State, statusOf: string -> Filters.Status)
    requires Searched(c, steps, s)
    ensures Members(FeasibleNodes(s)) !! StatusesOf(StatusMap(c, s.results, |s.results|), statusOf).Keys
  {
    forall n | n in FeasibleNodes(s) ensures n !in StatusMap(c, s.results, |s.results|) {
      ListAvoidsMap(c, steps, s, n);
    }
  }

  // What the search recorded about a node is what the extenders find.
  lemma RecordedStatus(c: Search, steps: seq<Step>, s: State, statusOf: string -> Filters.Status, i: nat)
    requires Searched(c, steps, s) && i < |c.nodes| && s.results[i].Some?
    ensures c.verdicts[i].Rejected?
    ensures var before := StatusesOf(StatusMap(c, s.results, |s.results|), statusOf);
      c.NodeAt(i) in before && before[c.NodeAt(i)] == statusOf(c.verdicts[i].reason)
  {
    FinishedResults(c, steps, s, i);
    StatusMapMeaning(c, s, |s.results|, i);
  }

  // A node that the filter plugins refused keeps that status, and whatever extenders say about it is added.
  lemma RefusedKeepsStatus(c: Search, steps: seq<Step>, s: State, filters: seq<Filters.Extender>,
                           statusOf: string -> Filters.Status, i: nat)
    requires Searched(c, steps, s) && !Filters.AnyAborts(filters, FeasibleNodes(s))
    requires i < |c.nodes| && s.results[i].Some?
    ensures c.verdicts[i].Rejected?
    ensures var name, status, diagnosis := c.NodeAt(i), statusOf(c.verdicts[i].reason), Diagnosis(c, s, filters, statusOf);
      && name in diagnosis
      && diagnosis[name].reasons == status.reasons + Filters.Told(filters, FeasibleNodes(s), name, |filters|)
      && (Filters.Unresolvable(filters, FeasibleNodes(s), name, |filters|) || diagnosis[name].code == status.code)
  {
    RecordedStatus(c, steps, s, statusOf, i);
    Filters.StatusSoFar(filters, FeasibleNodes(s), StatusesOf(StatusMap(c, s.results, |s.results|), statusOf), c.NodeAt(i), |filters|);
  }

  // Extenders that split their lists only move nodes from the list to the diagnosis: the two together are
  // as many as the nodes that the search processed.
  lemma EvaluatedIsProcessed(c: Search, steps: seq<Step>, s: State, filters: seq<Filters.Extender>, statusOf: string -> Filters.Status)
    requires Searched(c, steps, s) && Filters.WellBehaved(filters, FeasibleNodes(s))
    requires !Filters.AnyAborts(filters, FeasibleNodes(s)) && Distinct(Remaining(s, filters))
    ensures |Remaining(s, filters)| + |Diagnosis(c, s, filters, statusOf)|
         == |FeasibleNodes(s)| + |StatusMap(c, s.results, |s.results|)|
  {
    var list, reasons := FeasibleNodes(s), StatusMap(c, s.results, |s.results|);
    var before, left := StatusesOf(reasons, statusOf), Remaining(s, filters);
    ListAndMapApart(c, steps, s, statusOf);
    Filters.FailsIff(filters, list, before);
    Filters.FoldPartitions(filters, list, before);
    var who := FeasibleNames(c, steps, s);
    DistinctSize(list);
    DistinctSize(left);
    var after := Diagnosis(c, s, filters, statusOf);
    assert before.Keys == reasons.Keys && |after| == |after.Keys|;
    assert after.Keys == before.Keys + (Members(list) - Members(left));
  }

  ghost predicate CarriesTotals(list: Scores, nodes: seq<string>, scoring: Scoring)
    requires scoring.Valid() && scoring.Answers(nodes)
  {
    && |list| == |nodes|
    && (forall i :: 0 <= i < |nodes| ==> list[i].name == nodes[i] && list[i].total == scoring.MergedTotal(nodes, i))
  }

  // prioritizeNodes, its answer as the array that selectHost works on.
  method Prioritized(nodes: seq<string>, scoring: Scoring) returns (scored: array?<NodePluginScores>)
    requires scoring.Valid()
    ensures scored != null <==> scoring.Answers(nodes)
    ensures scored != null ==> fresh(scored) && CarriesTotals(scored[..], nodes, scoring)
  {
    assert ScoresEach(scoring.plugins(nodes), nodes);
    var list := Merging.PrioritizeNodes(nodes, scoring.extenders, scoring.hasPlugins, scoring.plugins(nodes));
    if list == None {
      return null;
    }
    scored := new NodePluginScores[|list.value|](i requires 0 <= i < |list.value| => list.value[i]);
    assert scored[..] == list.value;
  }

  lemma BestIsTop(list: Scores, nodes: seq<string>, scoring: Scoring, i: nat)
    requires scoring.Valid() && scoring.Answers(nodes) && CarriesTotals(list, nodes, scoring)
    requires i < |nodes| && IsBest(list, list[i])
    ensures scoring.IsTop(nodes, i)
  {
    forall j: nat | j < |nodes| ensures scoring.MergedTotal(nodes, j) <= scoring.MergedTotal(nodes, i) {
      assert list[j] in list;
    }
  }

  // The part of schedulePod after findNodesThatFitPod.
  method SuggestAmong(snapshotNodes: nat, nodes: seq<string>, scoring: Scoring, statuses: nat, draws: seq<nat>)
    returns (r: ScheduleResult)
    requires scoring.Valid() && InRange(draws) && |draws| >= |nodes| - 1
    ensures r != Crash
    ensures r == NoNodesAvailable <==> snapshotNodes == 0
    ensures r == Unfit <==> snapshotNodes > 0 && nodes == []
    ensures r == Failed <==> snapshotNodes > 0 && |nodes| > 1 && !scoring.Answers(nodes)
    ensures r.Suggested? ==> r.host in nodes && r.feasible == |nodes| && r.evaluated == |nodes| + statuses
    ensures r.Suggested? && |nodes| > 1 ==> scoring.TopHost(nodes, r.host)
  {
    var scored: array?<NodePluginScores> := null;
    if |nodes| > 1 {
      scored := Prioritized(nodes, scoring);
    }
    ghost var list: Scores := if scored != null then scored[..] else [];
    r := SchedulePod(snapshotNodes, Feasible(nodes), statuses, scored, draws);
    if r.Suggested? && |nodes| > 1 {
      ghost var i: nat :| i < |nodes| && nodes[i] == r.host && IsBest(list, list[i]);
      BestIsTop(list, nodes, scoring, i);
    }
  }

  ghost predicate Suits(c: Search, s: State, filters: seq<Filters.Extender>, statusOf: string -> Filters.Status,
                        scoring: Scoring, r: ScheduleResult)
    requires r.Suggested? && c.Valid() && Result(c, s) && scoring.Valid()
  {
    var left, diagnosis := Remaining(s, filters), Diagnosis(c, s, filters, statusOf);
    && PassesFilters(c, r.host) && r.host !in diagnosis && Filters.NeverFailed(filters, FeasibleNodes(s), r.host)
    && r.host in left && r.feasible == |left| && r.evaluated == |left| + |diagnosis|
    && (|left| > 1 ==> scoring.TopHost(left, r.host))
  }

  // schedulePod: the suggested host is a node that the filter plugins accept, that no extender that was asked failed,
  // and that has the largest merged total among the nodes that remain.  It fails exactly when a filter plugin
  // or an extender that may not be ignored errs, or the nodes that remain cannot be scored.
  method ScheduleOne(c: Search, ghost steps: seq<Step>, s: State, filters: seq<Filters.Extender>,
                     statusOf: string -> Filters.Status, scoring: Scoring, draws: seq<nat>)
    returns (r: ScheduleResult)
    requires Searched(c, steps, s) && Filters.WellBehaved(filters, FeasibleNodes(s))
    requires scoring.Valid() && InRange(draws) && |draws| >= |Remaining(s, filters)| - 1
    ensures r != Crash
    ensures r == NoNodesAvailable <==> c.nodes == []
    ensures var errs, left := s.errorSent || Filters.AnyAborts(filters, FeasibleNodes(s)), Remaining(s, filters);
      && (r == Unfit <==> c.nodes != [] && !errs && left == [])
      && (r == Failed <==> c.nodes != [] && (errs || (|left| > 1 && !scoring.Answers(left))))
    ensures r.Suggested? ==> Suits(c, s, filters, statusOf, scoring, r)
  {
    var reasons := CollectStatuses(c, s.results);
    var out, after := Filters.FindNodesThatPassExtenders(filters, FeasibleNodes(s), StatusesOf(reasons, statusOf));
    if s.errorSent || out == None {
      r := SchedulePod(|c.nodes|, FindError, |after|, null, draws);
    } else {
      r := SuggestAmong(|c.nodes|, out.value, scoring, |after|, draws);
      if r.Suggested? {
        RemainingIsSuitable(c, steps, s, filters, statusOf, r.host);
      }
    }
  }
}
