/** prioritizeNodes: plugin scores plus the extenders' scores, merged by goroutines that take one lock
    each in an arbitrary order.  Totals are int64 values. */
module ExtenderScores {
  import opened Options
  import opened GoInt
  import opened ScoreHeap

  const MAX_NODE_SCORE := 100
  const MAX_EXTENDER_PRIORITY := 10

  datatype HostPriority = HostPriority(host: string, score: int)

  // What extender.Prioritize answers.
  datatype Priorities = Priorities(list: seq<HostPriority>, weight: int) | PrioritizeError
  datatype Extender = Extender(name: string, interested: bool, answer: Priorities)

  datatype Combined = Combined(scores: seq<PluginScore>, total: int)

  // What the framework's score plugins answer: one entry per node, in the order of the nodes.
  datatype PluginAnswer = PluginScores(scores: Scores) | PluginError

  // ----- the sum the merge stands for -----

  ghost function HostSum(list: seq<HostPriority>, host: string): int {
    if list == [] then 0
    else HostSum(list[..|list| - 1], host) + if list[|list| - 1].host == host then list[|list| - 1].score else 0
  }

  ghost predicate Counts(e: Extender) {
    e.interested && e.answer.Priorities?
  }

  // What extender e adds to a host: score * weight * scale over its entries for the host.
  ghost function Share(e: Extender, host: string): int {
    if Counts(e) then HostSum(e.answer.list, host) * e.answer.weight * (MAX_NODE_SCORE / MAX_EXTENDER_PRIORITY) else 0
  }

  // An extender that is interested and answers adds ten times its weight for every point it gives a host;
  // any other one adds nothing, and no single score.
  lemma ShareIs(e: Extender, host: string)
    ensures Share(e, host) == if e.interested && e.answer.Priorities? then 10 * e.answer.weight * HostSum(e.answer.list, host) else 0
    ensures !e.interested || e.answer == PrioritizeError ==> SharedScores(e, host) == []
    ensures e.interested && e.answer.Priorities? ==> SharedScores(e, host) == EntryScores(e, e.answer.list, host)
  {
    if e.interested && e.answer.Priorities? {
      var sum, weight := HostSum(e.answer.list, host), e.answer.weight;
      assert sum * weight == weight * sum && 10 * weight * sum == 10 * (weight * sum);
    }
  }

  // The sum of some of the first k values.
  ghost function SumOver(values: seq<int>, of: set<nat>, k: nat): int
    requires k <= |values|
  {
    if k == 0 then 0 else SumOver(values, of, k - 1) + if k - 1 in of then values[k - 1] else 0
  }

  ghost function SharesOf(extenders: seq<Extender>, host: string): (values: seq<int>)
    ensures |values| == |extenders| && forall i :: 0 <= i < |extenders| ==> values[i] == Share(extenders[i], host)
  {
    seq(|extenders|, i requires 0 <= i < |extenders| => Share(extenders[i], host))
  }

  ghost function TotalShare(extenders: seq<Extender>, host: string): int {
    if extenders == [] then 0
    else TotalShare(extenders[..|extenders| - 1], host) + Share(extenders[|extenders| - 1], host)
  }

  // The single scores that extender e adds for a host, in the order of its answer.
  ghost function EntryScores(e: Extender, list: seq<HostPriority>, host: string): seq<PluginScore>
    requires e.answer.Priorities?
  {
    if list == [] then []
    else
      var last := list[|list| - 1];
      EntryScores(e, list[..|list| - 1], host)
      + if last.host == host then [PluginScore(e.name, FinalScore(last.score, e.answer.weight))] else []
  }

  // One entry gives its host one single score under the extender's name, and lists of entries add up.
  lemma {:induction false} EntriesAdd(e: Extender, a: seq<HostPriority>, b: seq<HostPriority>, p: HostPriority, host: string)
    requires e.answer.Priorities?
    ensures EntryScores(e, [p], host) ==
      if p.host == host then [PluginScore(e.name, Wrap64(p.score * e.answer.weight * 10))] else []
    ensures HostSum([p], host) == if p.host == host then p.score else 0
    ensures EntryScores(e, a + b, host) == EntryScores(e, a, host) + EntryScores(e, b, host)
    ensures HostSum(a + b, host) == HostSum(a, host) + HostSum(b, host)
  {
    assert [p][..0] == [];
    WrapProduct(p.score * e.answer.weight, 10);
    if b == [] {
      assert a + b == a;
    } else {
      EntriesAdd(e, a, b[..|b| - 1], p, host);
      assert (a + b)[..|a + b| - 1] == a + b[..|b| - 1];
    }
  }

  ghost function SharedScores(e: Extender, host: string): seq<PluginScore> {
    if Counts(e) then EntryScores(e, e.answer.list, host) else []
  }

  // How often a single score is added for a host.
  ghost function ScoreCount(e: Extender, host: string, score: PluginScore): nat {
    multiset(SharedScores(e, host))[score]
  }

  ghost function CountsOf(extenders: seq<Extender>, host: string, score: PluginScore): (values: seq<int>)
    ensures |values| == |extenders| && forall i :: 0 <= i < |extenders| ==> values[i] == ScoreCount(extenders[i], host, score)
  {
    seq(|extenders|, i requires 0 <= i < |extenders| => ScoreCount(extenders[i], host, score))
  }

  ghost function TotalCount(extenders: seq<Extender>, host: string, score: PluginScore): nat {
    if extenders == [] then 0
    else TotalCount(extenders[..|extenders| - 1], host, score) + ScoreCount(extenders[|extenders| - 1], host, score)
  }

  // A list holds every extender's single scores for a host, in some order.
  ghost predicate HoldsAll(scores: seq<PluginScore>, extenders: seq<Extender>, host: string) {
    forall x :: multiset(scores)[x] == TotalCount(extenders, host, x)
  }

  // ----- one critical section -----

  ghost function ScoresOf(all: map<string, Combined>, host: string): seq<PluginScore> {
    if host in all then all[host].scores else []
  }

  ghost function TotalOf(all: map<string, Combined>, host: string): int {
    if host in all then all[host].total else 0
  }

  // What the code computes for one entry.
  function FinalScore(score: int, weight: int): int {
    Wrap64(Wrap64(score * weight) * (MAX_NODE_SCORE / MAX_EXTENDER_PRIORITY))
  }

  ghost function Scaled(sum: int, weight: int): int {
    sum * weight * (MAX_NODE_SCORE / MAX_EXTENDER_PRIORITY)
  }

  lemma AddEntry(base: int, sum: int, score: int, weight: int)
    ensures Wrap64(Wrap64(base + Scaled(sum, weight)) + FinalScore(score, weight)) == Wrap64(base + Scaled(sum + score, weight))
  {
    WrapProduct(score * weight, MAX_NODE_SCORE / MAX_EXTENDER_PRIORITY);
    WrapSum(base + Scaled(sum, weight), Scaled(score, weight));
    assert (sum + score) * weight == sum * weight + score * weight;
  }

  ghost function AddOne(all: map<string, Combined>, e: Extender, p: HostPriority): map<string, Combined>
    requires e.answer.Priorities?
  {
    var finalscore := FinalScore(p.score, e.answer.weight);
    all[p.host := Combined(ScoresOf(all, p.host) + [PluginScore(e.name, finalscore)], Wrap64(TotalOf(all, p.host) + finalscore))]
  }

  ghost function AddList(all: map<string, Combined>, e: Extender, list: seq<HostPriority>): map<string, Combined>
    requires e.answer.Priorities?
  {
    if list == [] then all else AddOne(AddList(all, e, list[..|list| - 1]), e, list[|list| - 1])
  }

  lemma {:induction false} AddListTotals(all: map<string, Combined>, e: Extender, list: seq<HostPriority>, host: string)
    requires e.answer.Priorities? && Wrap64(TotalOf(all, host)) == TotalOf(all, host)
    ensures TotalOf(AddList(all, e, list), host) == Wrap64(TotalOf(all, host) + Scaled(HostSum(list, host), e.answer.weight))
  {
    if list != [] {
      AddListTotals(all, e, list[..|list| - 1], host);
      AddEntry(TotalOf(all, host), HostSum(list[..|list| - 1], host), list[|list| - 1].score, e.answer.weight);
    }
  }

  lemma {:induction false} AddListScores(all: map<string, Combined>, e: Extender, list: seq<HostPriority>, host: string)
    requires e.answer.Priorities?
    ensures ScoresOf(AddList(all, e, list), host) == ScoresOf(all, host) + EntryScores(e, list, host)
  {
    if list != [] {
      AddListScores(all, e, list[..|list| - 1], host);
    }
  }

  lemma AnswerAdds(all: map<string, Combined>, e: Extender, host: string)
    requires Counts(e) && Wrap64(TotalOf(all, host)) == TotalOf(all, host)
    ensures var out := AddList(all, e, e.answer.list);
      && TotalOf(out, host) == Wrap64(TotalOf(all, host) + Share(e, host))
      && ScoresOf(out, host) == ScoresOf(all, host) + SharedScores(e, host)
  {
    AddListTotals(all, e, e.answer.list, host);
    AddListScores(all, e, e.answer.list, host);
  }

  // One goroutine's work under the lock.
  method AddAnswer(all: map<string, Combined>, e: Extender) returns (out: map<string, Combined>)
    requires Counts(e)
    requires forall host :: Wrap64(TotalOf(all, host)) == TotalOf(all, host)
    ensures forall host :: TotalOf(out, host) == Wrap64(TotalOf(all, host) + Share(e, host))
    ensures forall host :: ScoresOf(out, host) == ScoresOf(all, host) + SharedScores(e, host)
  {
    out := AddEntries(all, e);
    forall host
      ensures TotalOf(out, host) == Wrap64(TotalOf(all, host) + Share(e, host))
      ensures ScoresOf(out, host) == ScoresOf(all, host) + SharedScores(e, host)
    {
      AnswerAdds(all, e, host);
    }
  }

  lemma AddListStep(all: map<string, Combined>, e: Extender, list: seq<HostPriority>, i: nat)
    requires e.answer.Priorities? && i < |list|
    ensures AddList(all, e, list[..i + 1]) == AddOne(AddList(all, e, list[..i]), e, list[i])
  {
    assert list[..i + 1][..i] == list[..i];
  }

  // The loop over the answer.
  method AddEntries(all: map<string, Combined>, e: Extender) returns (out: map<string, Combined>)
    requires e.answer.Priorities?
    ensures out == AddList(all, e, e.answer.list)
  {
    out := all;
    var list, weight := e.answer.list, e.answer.weight;
    for i := 0 to |list|
      invariant out == AddList(all, e, list[..i])
    {
      AddListStep(all, e, list, i);
      var p := list[i];
      var entry := if p.host in out then out[p.host] else Combined([], 0);
      var finalscore := FinalScore(p.score, weight);
      out := out[p.host := Combined(entry.scores + [PluginScore(e.name, finalscore)], Wrap64(entry.total + finalscore))];
    }
    assert list[..|list|] == list;
  }

  // ----- all critical sections, in any order -----

  lemma {:induction false} SumOfOneMore(values: seq<int>, of: set<nat>, i: nat, k: nat)
    requires k <= |values| && i < |values| && i !in of
    ensures SumOver(values, of + {i}, k) == SumOver(values, of, k) + if i < k then values[i] else 0
  {
    if k > 0 {
      SumOfOneMore(values, of, i, k - 1);
    }
  }

  lemma {:induction false} SumOfNone(values: seq<int>, k: nat)
    requires k <= |values|
    ensures SumOver(values, {}, k) == 0
  {
    if k > 0 {
      SumOfNone(values, k - 1);
    }
  }

  ghost predicate IsLive(extenders: seq<Extender>, of: set<nat>) {
    forall i: nat :: i < |extenders| ==> (i in of <==> Counts(extenders[i]))
  }

  lemma {:induction false} ShareOfAll(extenders: seq<Extender>, of: set<nat>, host: string, k: nat)
    requires k <= |extenders| && IsLive(extenders, of)
    ensures SumOver(SharesOf(extenders, host), of, k) == TotalShare(extenders[..k], host)
  {
    if k > 0 {
      ShareOfAll(extenders, of, host, k - 1);
      assert extenders[..k][..k - 1] == extenders[..k - 1];
    }
  }

  lemma CountStep(extenders: seq<Extender>, of: set<nat>, host: string, x: PluginScore, k: nat)
    requires 0 < k <= |extenders| && IsLive(extenders, of)
    ensures TotalCount(extenders[..k], host, x) == TotalCount(extenders[..k - 1], host, x)
         + if k - 1 in of then CountsOf(extenders, host, x)[k - 1] else 0
  {
    assert extenders[..k][..k - 1] == extenders[..k - 1];
    assert k - 1 in of <==> Counts(extenders[k - 1]);
  }

  lemma {:induction false} CountOfAll(extenders: seq<Extender>, of: set<nat>, host: string, x: PluginScore, k: nat)
    requires k <= |extenders| && IsLive(extenders, of)
    ensures SumOver(CountsOf(extenders, host, x), of, k) == TotalCount(extenders[..k], host, x)
  {
    if k > 0 {
      CountOfAll(extenders, of, host, x, k - 1);
      CountStep(extenders, of, host, x, k);
    }
  }

  // The map holds for a host what the extenders of a set added, in whatever order they came.
  ghost predicate TotalMerged(all: map<string, Combined>, extenders: seq<Extender>, of: set<nat>, host: string) {
    TotalOf(all, host) == Wrap64(SumOver(SharesOf(extenders, host), of, |extenders|))
  }

  ghost predicate CountMerged(all: map<string, Combined>, extenders: seq<Extender>, of: set<nat>, host: string, x: PluginScore) {
    multiset(ScoresOf(all, host))[x] == SumOver(CountsOf(extenders, host, x), of, |extenders|)
  }

  ghost predicate AllMerged(all: map<string, Combined>, extenders: seq<Extender>, of: set<nat>) {
    && (forall host :: TotalMerged(all, extenders, of, host))
    && (forall host, x :: CountMerged(all, extenders, of, host, x))
  }

  lemma TotalOneMore(total: int, sum: int, share: int, after: int)
    requires total == Wrap64(sum) && after == Wrap64(total + share)
    ensures after == Wrap64(sum + share)
  {
    WrapOnce(sum, share);
  }

  lemma TotalMergedOneMore(before: map<string, Combined>, all: map<string, Combined>, extenders: seq<Extender>, of: set<nat>, i: nat, host: string)
    requires i < |extenders| && i !in of && TotalMerged(before, extenders, of, host)
    requires TotalOf(all, host) == Wrap64(TotalOf(before, host) + Share(extenders[i], host))
    ensures TotalMerged(all, extenders, of + {i}, host)
  {
    SumOfOneMore(SharesOf(extenders, host), of, i, |extenders|);
    TotalOneMore(TotalOf(before, host), SumOver(SharesOf(extenders, host), of, |extenders|), Share(extenders[i], host), TotalOf(all, host));
  }

  lemma CountMergedOneMore(before: map<string, Combined>, all: map<string, Combined>, extenders: seq<Extender>, of: set<nat>,
                           i: nat, host: string, x: PluginScore)
    requires i < |extenders| && i !in of && CountMerged(before, extenders, of, host, x)
    requires ScoresOf(all, host) == ScoresOf(before, host) + SharedScores(extenders[i], host)
    ensures CountMerged(all, extenders, of + {i}, host, x)
  {
    SumOfOneMore(CountsOf(extenders, host, x), of, i, |extenders|);
  }

  lemma Wrapped(x: int)
    ensures Wrap64(Wrap64(x)) == Wrap64(x)
  {
    WrapOnce(x, 0);
  }

  lemma MergedFits(all: map<string, Combined>, extenders: seq<Extender>, of: set<nat>, host: string)
    requires TotalMerged(all, extenders, of, host)
    ensures Wrap64(TotalOf(all, host)) == TotalOf(all, host)
  {
    Wrapped(SumOver(SharesOf(extenders, host), of, |extenders|));
  }

  // One goroutine, when some others were there before it.
  method TakeLock(all: map<string, Combined>, extenders: seq<Extender>, i: nat, ghost done: set<nat>) returns (out: map<string, Combined>)
    requires i < |extenders| && Counts(extenders[i]) && i !in done && AllMerged(all, extenders, done)
    ensures AllMerged(out, extenders, done + {i})
  {
    forall host ensures Wrap64(TotalOf(all, host)) == TotalOf(all, host) {
      assert TotalMerged(all, extenders, done, host);
      MergedFits(all, extenders, done, host);
    }
    out := AddAnswer(all, extenders[i]);
    forall host ensures TotalMerged(out, extenders, done + {i}, host) {
      assert TotalMerged(all, extenders, done, host);
      TotalMergedOneMore(all, out, extenders, done, i, host);
    }
    forall host, x ensures CountMerged(out, extenders, done + {i}, host, x) {
      assert CountMerged(all, extenders, done, host, x);
      CountMergedOneMore(all, out, extenders, done, i, host, x);
    }
  }

  lemma NothingMerged(extenders: seq<Extender>)
    ensures AllMerged(map[], extenders, {})
  {
    forall host ensures TotalMerged(map[], extenders, {}, host) {
      SumOfNone(SharesOf(extenders, host), |extenders|);
    }
    forall host, x ensures CountMerged(map[], extenders, {}, host, x) {
      SumOfNone(CountsOf(extenders, host, x), |extenders|);
    }
  }

  // A host's combined total and single scores, whatever the order among the extenders.
  ghost predicate Complete(all: map<string, Combined>, extenders: seq<Extender>, host: string) {
    TotalOf(all, host) == Wrap64(TotalShare(extenders, host)) && HoldsAll(ScoresOf(all, host), extenders, host)
  }

  lemma MergedIsComplete(all: map<string, Combined>, extenders: seq<Extender>, of: set<nat>, host: string)
    requires AllMerged(all, extenders, of) && IsLive(extenders, of)
    ensures Complete(all, extenders, host)
  {
    assert TotalMerged(all, extenders, of, host);
    ShareOfAll(extenders, of, host, |extenders|);
    assert extenders[..|extenders|] == extenders;
    forall x ensures multiset(ScoresOf(all, host))[x] == TotalCount(extenders, host, x) {
      assert CountMerged(all, extenders, of, host, x);
      CountOfAll(extenders, of, host, x, |extenders|);
    }
  }

  // The goroutines of the interested extenders that did not fail take the lock in an arbitrary order;
  // whatever the order, the totals are these, and so are the single scores up to their order.
  method CombineExtenders(extenders: seq<Extender>) returns (all: map<string, Combined>)
    ensures forall host :: Complete(all, extenders, host)
  {
    all := map[];
    var live: set<nat> := set i: nat | i < |extenders| && extenders[i].interested && extenders[i].answer.Priorities?;
    var waiting := live;
    NothingMerged(extenders);
    assert live - waiting == {};
    while waiting != {}
      invariant waiting <= live
      invariant AllMerged(all, extenders, live - waiting)
    {
      var i :| i in waiting;
      all := TakeLock(all, extenders, i, live - waiting);
      assert live - (waiting - {i}) == live - waiting + {i};
      waiting := waiting - {i};
    }
    assert live - waiting == live;
    forall host ensures Complete(all, extenders, host) {
      MergedIsComplete(all, extenders, live, host);
    }
  }

  // A node's final entry: its plugin scores in front, then the extenders' single scores in some order,
  // and the sum of both totals.
  ghost predicate FinalEntry(entry: NodePluginScores, plugins: NodePluginScores, extenders: seq<Extender>, host: string) {
    && entry.name == plugins.name
    && plugins.scores <= entry.scores && HoldsAll(entry.scores[|plugins.scores|..], extenders, host)
    && entry.total == Wrap64(plugins.total + TotalShare(extenders, host))
  }

  lemma WrapBoth(x: int, y: int)
    requires Wrap64(x) == x
    ensures Wrap64(x + Wrap64(y)) == Wrap64(x + y)
  {
    WrapSum(x, y);
  }

  lemma CombinedEntry(plugins: NodePluginScores, extenders: seq<Extender>, host: string, added: Combined)
    requires added.total == Wrap64(TotalShare(extenders, host)) && HoldsAll(added.scores, extenders, host)
    requires Wrap64(plugins.total) == plugins.total
    ensures FinalEntry(plugins.(scores := plugins.scores + added.scores, total := Wrap64(plugins.total + added.total)), plugins, extenders, host)
  {
    WrapBoth(plugins.total, TotalShare(extenders, host));
    assert (plugins.scores + added.scores)[|plugins.scores|..] == added.scores;
  }

  // A host without an entry got nothing from any extender.
  lemma MissingEntry(plugins: NodePluginScores, extenders: seq<Extender>, host: string)
    requires Wrap64(TotalShare(extenders, host)) == 0 && HoldsAll([], extenders, host)
    requires Wrap64(plugins.total) == plugins.total
    ensures FinalEntry(plugins, plugins, extenders, host)
  {
    WrapBoth(plugins.total, TotalShare(extenders, host));
  }

  // Without extenders and score plugins every node scores one; otherwise each node's total is its
  // plugin total plus the sum of the shares of the extenders, independent of scheduling.
  method PrioritizeNodes(nodes: seq<string>, extenders: seq<Extender>, hasScorePlugins: bool, answer: PluginAnswer)
    returns (r: Option<Scores>)
    requires answer.PluginScores? ==> |answer.scores| == |nodes|
    requires answer.PluginScores? ==> forall i :: 0 <= i < |nodes| ==> Wrap64(answer.scores[i].total) == answer.scores[i].total
    ensures r == None <==> answer == PluginError && (extenders != [] || hasScorePlugins)
    ensures r.Some? ==> |r.value| == |nodes|
    ensures r.Some? && extenders == [] && !hasScorePlugins ==>
      forall i :: 0 <= i < |nodes| ==> r.value[i] == NodePluginScores(nodes[i], [], 1)
    ensures r.Some? && (extenders != [] || hasScorePlugins) ==>
      forall i :: 0 <= i < |nodes| ==> FinalEntry(r.value[i], answer.scores[i], extenders, nodes[i])
  {
    if |extenders| == 0 && !hasScorePlugins {
      return Some(seq(|nodes|, i requires 0 <= i < |nodes| => NodePluginScores(nodes[i], [], 1)));
    }
    if answer == PluginError {
      return None;
    }
    var scores := answer.scores;
    if |extenders| != 0 {
      scores := AppendAll(nodes, extenders, answer.scores);
    } else {
      forall i | 0 <= i < |nodes| ensures FinalEntry(scores[i], answer.scores[i], extenders, nodes[i]) {
        MissingEntry(scores[i], extenders, nodes[i]);
      }
    }
    return Some(scores);
  }

  method AppendOne(plugins: NodePluginScores, all: map<string, Combined>, ghost extenders: seq<Extender>, host: string)
    returns (entry: NodePluginScores)
    requires Wrap64(plugins.total) == plugins.total && Complete(all, extenders, host)
    ensures FinalEntry(entry, plugins, extenders, host)
  {
    entry := plugins;
    if host in all {
      var c := all[host];
      CombinedEntry(plugins, extenders, host, c);
      entry := entry.(scores := entry.scores + c.scores, total := Wrap64(entry.total + c.total));
    } else {
      MissingEntry(plugins, extenders, host);
    }
  }

  // The loop after all goroutines are done.
  method AppendAll(nodes: seq<string>, extenders: seq<Extender>, plugins: Scores) returns (scores: Scores)
    requires |plugins| == |nodes| && forall i :: 0 <= i < |nodes| ==> Wrap64(plugins[i].total) == plugins[i].total
    ensures |scores| == |nodes|
    ensures forall i :: 0 <= i < |nodes| ==> FinalEntry(scores[i], plugins[i], extenders, nodes[i])
  {
    var all := CombineExtenders(extenders);
    scores := plugins;
    for i := 0 to |scores|
      invariant |scores| == |nodes|
      invariant forall j :: i <= j < |scores| ==> scores[j] == plugins[j]
      invariant forall j :: 0 <= j < i ==> FinalEntry(scores[j], plugins[j], extenders, nodes[j])
    {
      assert Complete(all, extenders, nodes[i]);
      var entry := AppendOne(scores[i], all, extenders, nodes[i]);
      scores := scores[i := entry];
    }
  }
}
