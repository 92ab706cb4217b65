/** Crash safety, idempotence and draining of ReadyJobs, and when its lookup keys clash. */
module QueueSafety {
  import opened Collections
  import opened Text
  import opened Tables
  import opened Provisional
  import opened Quorum

  // ----- the tables after some statements, in closed form -----

  ghost function WithPending(t: Tables, keys: set<GroupKey>): Tables
    requires keys <= t.groups.Keys
  {
    t.(pending := map g | g in t.pending.Keys + keys :: if g in t.pending then t.pending[g] else t.groups[g].size)
  }

  lemma {:induction false} InsertedIs(t: Tables, groups: seq<GroupKey>, k: nat)
    requires k <= |groups| && AllIn(groups, t.groups.Keys)
    ensures Members(groups[..k]) <= t.groups.Keys
    ensures Inserted(t, groups, k) == WithPending(t, Members(groups[..k]))
  {
    if k > 0 {
      InsertedIs(t, groups, k - 1);
      assert Members(groups[..k]) == Members(groups[..k - 1]) + {groups[k - 1]};
      InsertOneMore(t, Members(groups[..k - 1]), groups[k - 1]);
    } else {
      assert Members(groups[..0]) == {};
    }
  }

  lemma InsertOneMore(t: Tables, keys: set<GroupKey>, g: GroupKey)
    requires keys <= t.groups.Keys && g in t.groups
    ensures InsertPending(WithPending(t, keys), g, t.groups[g].size) == WithPending(t, keys + {g})
  {
    var a := InsertPending(WithPending(t, keys), g, t.groups[g].size).pending;
    var b := WithPending(t, keys + {g}).pending;
    assert a.Keys == b.Keys;
    assert a == b;
  }

  // At every point inside ReadyJobs each group that was ready is still provisional or already pending.
  lemma CrashSafe(t: Tables, groups: seq<GroupKey>, k: nat, g: GroupKey)
    requires Selection(t, groups) && AllIn(groups, t.groups.Keys) && g in Ready(t)
    ensures g in ReadySteps(t, groups, k).groups || g in ReadySteps(t, groups, k).pending
    ensures g in ReadySteps(t, groups, k).groups ==> ReadySteps(t, groups, k).groups[g] == t.groups[g]
    ensures g in t.pending ==> g in ReadySteps(t, groups, k).pending && ReadySteps(t, groups, k).pending[g] == t.pending[g]
  {
    InsertedIs(t, groups, if k <= |groups| then k else |groups|);
    assert groups[..|groups|] == groups;
  }

  // ----- running again after a crash -----

  // For each lookup key, the earliest created_at among its ready groups is attained once.
  ghost predicate UniqueOldest(t: Tables) {
    forall g, h :: Oldest(t, g) && Oldest(t, h) && LookupKey(g) == LookupKey(h) ==> g == h
  }

  ghost predicate NoClash(groups: set<GroupKey>) {
    forall g, h :: g in groups && h in groups && LookupKey(g) == LookupKey(h) ==> g == h
  }

  // The tables when ReadyJobs stops before its k-th statement and then runs to the end.
  ghost function Rerun(t: Tables, first: seq<GroupKey>, k: nat, second: seq<GroupKey>): Tables
    requires k <= |first| && AllIn(first, t.groups.Keys) && AllIn(second, t.groups.Keys)
  {
    InsertedIs(t, first, k);
    Completed(Inserted(t, first, k), second)
  }

  lemma CompletedIs(t: Tables, groups: seq<GroupKey>)
    requires AllIn(groups, t.groups.Keys)
    ensures Members(groups) <= t.groups.Keys
    ensures Completed(t, groups) == DeleteGroups(WithPending(t, Members(groups)), Members(groups))
  {
    InsertedIs(t, groups, |groups|);
    assert groups[..|groups|] == groups;
  }

  lemma SameRows(t: Tables, u: Tables, groups: seq<GroupKey>)
    requires t.groups == u.groups
    ensures Ready(u) == Ready(t)
    ensures Selection(u, groups) <==> Selection(t, groups)
  {
    assert Ready(u) == Ready(t);
    forall g ensures Oldest(u, g) <==> Oldest(t, g) {
    }
  }

  // The crash left the group rows and their timestamps alone, so the second run may select exactly
  // what a run on the old tables may select.
  lemma RerunSelects(t: Tables, first: seq<GroupKey>, k: nat, second: seq<GroupKey>)
    requires k <= |first| && AllIn(first, t.groups.Keys)
    ensures Ready(Inserted(t, first, k)) == Ready(t)
    ensures Selection(Inserted(t, first, k), second) <==> Selection(t, second)
  {
    InsertedIs(t, first, k);
    SameRows(t, Inserted(t, first, k), second);
  }

  // If the second run selects the same groups, nothing shows that there was a crash.
  lemma RerunSame(t: Tables, first: seq<GroupKey>, k: nat, second: seq<GroupKey>)
    requires k <= |first| && AllIn(first, t.groups.Keys) && AllIn(second, t.groups.Keys)
    requires Members(first) == Members(second)
    ensures Rerun(t, first, k, second) == Completed(t, first)
  {
    InsertedIs(t, first, k);
    CompletedIs(t, first);
    CompletedIs(Inserted(t, first, k), second);
    assert Members(first[..k]) <= Members(first);
    PendingTwice(t, Members(first[..k]), Members(first));
  }

  lemma PendingTwice(t: Tables, some: set<GroupKey>, all: set<GroupKey>)
    requires some <= all <= t.groups.Keys
    ensures WithPending(WithPending(t, some), all) == WithPending(t, all)
  {
  }

  lemma SelectedAreOldest(t: Tables, groups: seq<GroupKey>, g: GroupKey)
    requires Selection(t, groups) && UniqueOldest(t)
    ensures g in Members(groups) <==> Oldest(t, g)
  {
    if Oldest(t, g) {
      assert Represented(g, groups);
      var i :| 0 <= i < |groups| && LookupKey(groups[i]) == LookupKey(g);
      assert Oldest(t, groups[i]);
    }
  }

  lemma UniqueSelection(t: Tables, first: seq<GroupKey>, second: seq<GroupKey>)
    requires Selection(t, first) && Selection(t, second) && UniqueOldest(t)
    ensures Members(first) == Members(second)
  {
    forall g ensures g in Members(first) <==> g in Members(second) {
      SelectedAreOldest(t, first, g);
      SelectedAreOldest(t, second, g);
    }
  }

  lemma ConsCovers(g: GroupKey, others: seq<GroupKey>, rest: set<GroupKey>, ready: set<GroupKey>)
    requires Covers(others, rest)
    requires forall h :: h in ready && h !in rest ==> LookupKey(h) == LookupKey(g)
    ensures Covers([g] + others, ready)
  {
    var groups := [g] + others;
    forall h | h in ready ensures Represented(h, groups) {
      if h in rest {
        assert Represented(h, others);
        var i :| 0 <= i < |others| && LookupKey(others[i]) == LookupKey(h);
        assert groups[i + 1] == others[i];
      } else {
        assert groups[0] == g;
      }
    }
  }

  lemma ConsDistinct(g: GroupKey, others: seq<GroupKey>)
    requires DistinctKeys(others) && forall i :: 0 <= i < |others| ==> LookupKey(others[i]) != LookupKey(g)
    ensures DistinctKeys([g] + others)
  {
    var groups := [g] + others;
    forall i, j | 0 <= i < j < |groups| ensures LookupKey(groups[i]) != LookupKey(groups[j]) {
      assert groups[j] == others[j - 1];
      assert i > 0 ==> groups[i] == others[i - 1];
    }
  }

  ghost function SameKey(ready: set<GroupKey>, key: string): set<GroupKey> {
    set g | g in ready && LookupKey(g) == key
  }

  // Each key of a ready group has an oldest ready group.
  lemma OldestExists(t: Tables, h: GroupKey) returns (g: GroupKey)
    requires h in Ready(t)
    ensures Oldest(t, g) && LookupKey(g) == LookupKey(h)
  {
    var same := SameKey(Ready(t), LookupKey(h));
    assert h in same;
    g := LargestExists(same, x => -Created(t, x));
    assert g in same;
    forall x | x in Ready(t) && LookupKey(x) == LookupKey(g) ensures Created(t, g) <= Created(t, x) {
      assert x in same;
    }
  }

  ghost function OtherKeys(ready: set<GroupKey>, g: GroupKey): (rest: set<GroupKey>)
    ensures rest <= ready
  {
    set h | h in ready && LookupKey(h) != LookupKey(g)
  }

  // With a group also every ready group that shares its key.
  ghost predicate WholeKeys(t: Tables, part: set<GroupKey>) {
    part <= Ready(t) && forall g, h :: g in part && h in Ready(t) && LookupKey(h) == LookupKey(g) ==> h in part
  }

  lemma OthersWhole(t: Tables, part: set<GroupKey>, g: GroupKey)
    requires WholeKeys(t, part) && g in part
    ensures WholeKeys(t, OtherKeys(part, g)) && |OtherKeys(part, g)| < |part|
  {
    StrictlySmaller(part, OtherKeys(part, g), g);
  }

  // A group and one group for each other key.
  ghost predicate OneForEach(t: Tables, part: set<GroupKey>, groups: seq<GroupKey>) {
    && AllIn(groups, part) && Covers(groups, part) && DistinctKeys(groups)
    && forall i :: 0 <= i < |groups| ==> Oldest(t, groups[i])
  }

  lemma ConsSelects(t: Tables, part: set<GroupKey>, g: GroupKey, others: seq<GroupKey>)
    requires g in part && Oldest(t, g) && OneForEach(t, OtherKeys(part, g), others)
    ensures OneForEach(t, part, [g] + others)
  {
    var groups, rest := [g] + others, OtherKeys(part, g);
    forall i | 0 <= i < |others| ensures others[i] in part && LookupKey(others[i]) != LookupKey(g) {
      assert others[i] in rest;
    }
    forall i | 0 <= i < |groups| ensures groups[i] in part && Oldest(t, groups[i]) {
      assert groups[i] == if i == 0 then g else others[i - 1];
    }
    ConsCovers(g, others, rest, part);
    ConsDistinct(g, others);
  }

  // A selection that starts with any given oldest group exists.
  lemma {:induction false} SelectWith(t: Tables, part: set<GroupKey>, g: GroupKey) returns (groups: seq<GroupKey>)
    requires WholeKeys(t, part) && g in part && Oldest(t, g)
    ensures |groups| > 0 && groups[0] == g && OneForEach(t, part, groups)
    decreases |part|
  {
    var rest := OtherKeys(part, g);
    var others: seq<GroupKey> := [];
    OthersWhole(t, part, g);
    if rest != {} {
      var h :| h in rest;
      var next := OldestExists(t, h);
      others := SelectWith(t, rest, next);
    }
    groups := [g] + others;
    ConsSelects(t, part, g, others);
  }

  lemma StrictlySmaller(all: set<GroupKey>, part: set<GroupKey>, g: GroupKey)
    requires part <= all - {g} && g in all
    ensures |part| < |all|
  {
    SubsetSize(part, all - {g});
  }

  // One call stops before its k-th statement, and another one runs to the end on the tables it left.
  ghost predicate CrashAndRerun(t: Tables, first: seq<GroupKey>, k: nat, second: seq<GroupKey>) {
    && Selection(t, first) && AllIn(first, t.groups.Keys) && k <= |first|
    && Selection(Inserted(t, first, k), second) && AllIn(second, t.groups.Keys)
  }

  ghost predicate RerunsAgree(t: Tables) {
    forall first, k: nat, second :: CrashAndRerun(t, first, k, second) ==> Rerun(t, first, k, second) == Completed(t, first)
  }

  lemma NotSelected(first: seq<GroupKey>, g: GroupKey)
    requires first != [] && g != first[0] && LookupKey(g) == LookupKey(first[0])
    requires DistinctKeys(first)
    ensures g !in Members(first)
  {
    forall i | 0 <= i < |first| ensures first[i] != g {
      assert i > 0 ==> LookupKey(first[0]) != LookupKey(first[i]);
    }
  }

  lemma TieShows(t: Tables, g: GroupKey, h: GroupKey)
    requires Oldest(t, g) && Oldest(t, h) && g != h && LookupKey(g) == LookupKey(h)
    ensures !RerunsAgree(t)
  {
    var first := SelectWith(t, Ready(t), g);
    var second := SelectWith(t, Ready(t), h);
    RerunSelects(t, first, 0, second);
    assert CrashAndRerun(t, first, 0, second);
    NotSelected(second, g);
    CompletedIs(t, first);
    CompletedIs(t, second);
    assert first[0] in Members(first);
    assert g in Rerun(t, first, 0, second).groups && g !in Completed(t, first).groups;
  }

  // A crash and a second call always give the tables that the interrupted call was heading for exactly when
  // no two ready groups tie for the oldest with their lookup key: then there is only one selection.
  lemma RerunsAgreeIff(t: Tables)
    ensures RerunsAgree(t) <==> UniqueOldest(t)
  {
    if UniqueOldest(t) {
      forall first, k: nat, second | CrashAndRerun(t, first, k, second)
        ensures Rerun(t, first, k, second) == Completed(t, first)
      {
        RerunSelects(t, first, k, second);
        UniqueSelection(t, first, second);
        RerunSame(t, first, k, second);
      }
    } else {
      var g, h :| Oldest(t, g) && Oldest(t, h) && LookupKey(g) == LookupKey(h) && g != h;
      TieShows(t, g, h);
    }
  }

  lemma NoClashIsUnique(t: Tables)
    requires NoClash(Ready(t))
    ensures UniqueOldest(t) && RerunsAgree(t) && CrashInvisible(t)
  {
    RerunsAgreeIff(t);
    CrashInvisibleIff(t);
  }

  // ----- when a crash leaves a trace -----

  // What one uninterrupted call may make of the tables.
  ghost predicate OneCall(t: Tables, after: Tables) {
    exists groups :: Selection(t, groups) && AllIn(groups, t.groups.Keys) && after == Completed(t, groups)
  }

  // Whatever a crash and a second call leave behind, one uninterrupted call could have left behind too.
  ghost predicate CrashInvisible(t: Tables) {
    forall first, k: nat, second :: CrashAndRerun(t, first, k, second) ==> OneCall(t, Rerun(t, first, k, second))
  }

  // Every group that ties with another one for the oldest with its lookup key is pending already.
  ghost predicate TiesPending(t: Tables) {
    forall g, h :: Oldest(t, g) && Oldest(t, h) && LookupKey(g) == LookupKey(h) && g != h ==> g in t.pending
  }

  // What the first call inserted before it stopped, the second one inserts again or was pending before.
  lemma InsertedAnyway(t: Tables, first: seq<GroupKey>, second: seq<GroupKey>, g: GroupKey)
    requires TiesPending(t) && Selection(t, first) && Selection(t, second) && g in first
    ensures g in t.pending.Keys + Members(second)
  {
    assert Oldest(t, g);
    assert Represented(g, second);
    var i :| 0 <= i < |second| && LookupKey(second[i]) == LookupKey(g);
    assert Oldest(t, second[i]);
  }

  // Inserting the groups of some also changes nothing that inserting those of all does not cover.
  lemma PendingCovered(t: Tables, some: set<GroupKey>, all: set<GroupKey>)
    requires some <= t.groups.Keys && all <= t.groups.Keys && some <= t.pending.Keys + all
    ensures WithPending(WithPending(t, some), all) == WithPending(t, all)
  {
    var a, b := WithPending(WithPending(t, some), all).pending, WithPending(t, all).pending;
    assert a.Keys == b.Keys;
    assert a == b;
  }

  // Then the second call alone would have given the same tables.
  lemma RerunIsOneCall(t: Tables, first: seq<GroupKey>, k: nat, second: seq<GroupKey>)
    requires TiesPending(t) && CrashAndRerun(t, first, k, second)
    ensures Selection(t, second) && Rerun(t, first, k, second) == Completed(t, second)
  {
    RerunSelects(t, first, k, second);
    var some := Members(first[..k]);
    forall g | g in some ensures g in t.pending.Keys + Members(second) {
      InsertedAnyway(t, first, second, g);
    }
    InsertedIs(t, first, k);
    CompletedIs(t, second);
    CompletedIs(Inserted(t, first, k), second);
    PendingCovered(t, some, Members(second));
  }

  // A crash between the inserts and the delete, and a second call that selects the other one of two tied groups:
  // the group of the first call is left both provisional and pending.
  lemma LeftInBoth(t: Tables, g: GroupKey, h: GroupKey) returns (first: seq<GroupKey>, second: seq<GroupKey>)
    requires Oldest(t, g) && Oldest(t, h) && LookupKey(g) == LookupKey(h) && g != h
    ensures CrashAndRerun(t, first, |first|, second) && g in first && h in second
    ensures g in Rerun(t, first, |first|, second).groups && g in Rerun(t, first, |first|, second).pending
  {
    first := SelectWith(t, Ready(t), g);
    second := SelectWith(t, Ready(t), h);
    RerunSelects(t, first, |first|, second);
    InsertedIs(t, first, |first|);
    CompletedIs(Inserted(t, first, |first|), second);
    NotSelected(second, g);
    assert first[..|first|] == first && first[0] in Members(first);
  }

  // One uninterrupted call leaves no group in both tables that was not pending before.
  lemma NeverInBoth(t: Tables, after: Tables, g: GroupKey)
    requires OneCall(t, after) && g in after.groups && g in after.pending
    ensures g in t.pending
  {
    var groups :| Selection(t, groups) && AllIn(groups, t.groups.Keys) && after == Completed(t, groups);
    CompletedIs(t, groups);
  }

  // A crash and a second call can always be taken for one uninterrupted call exactly when every group that ties
  // for the oldest with its lookup key is pending already.
  lemma CrashInvisibleIff(t: Tables)
    ensures CrashInvisible(t) <==> TiesPending(t)
  {
    if TiesPending(t) {
      forall first, k: nat, second | CrashAndRerun(t, first, k, second) ensures OneCall(t, Rerun(t, first, k, second)) {
        RerunIsOneCall(t, first, k, second);
      }
    } else {
      var g, h :| Oldest(t, g) && Oldest(t, h) && LookupKey(g) == LookupKey(h) && g != h && g !in t.pending;
      var first, second := LeftInBoth(t, g, h);
      if OneCall(t, Rerun(t, first, |first|, second)) {
        NeverInBoth(t, Rerun(t, first, |first|, second), g);
      }
    }
  }

  // ----- draining -----

  // One call takes exactly the selected groups, one for each lookup key, and leaves every other row alone.
  lemma CallTakesSelection(t: Tables, groups: seq<GroupKey>)
    requires Selection(t, groups) && AllIn(groups, t.groups.Keys)
    ensures var after := Completed(t, groups);
      && Ready(after) == Ready(t) - Members(groups)
      && after.groups == t.groups - Members(groups) && after.pods == t.pods
      && (forall g :: g in groups ==> g in after.pending)
  {
    CompletedIs(t, groups);
    forall g | g in groups ensures g in Completed(t, groups).pending {
      assert g in Members(groups);
    }
  }

  // At most m ready groups share a key.
  ghost predicate ClashBound(ready: set<GroupKey>, m: nat) {
    forall g :: g in ready ==> |SameKey(ready, LookupKey(g))| <= m
  }

  lemma CallLowersClash(t: Tables, groups: seq<GroupKey>, m: nat)
    requires Selection(t, groups) && AllIn(groups, t.groups.Keys) && m > 0 && ClashBound(Ready(t), m)
    ensures ClashBound(Ready(Completed(t, groups)), m - 1)
  {
    CallTakesSelection(t, groups);
    var ready := Ready(t);
    var left := ready - Members(groups);
    forall g | g in left ensures |SameKey(left, LookupKey(g))| <= m - 1 {
      assert Represented(g, groups);
      OneTaken(ready, groups, LookupKey(g));
    }
  }

  lemma OneTaken(ready: set<GroupKey>, groups: seq<GroupKey>, key: string)
    requires AllIn(groups, ready) && exists i :: 0 <= i < |groups| && LookupKey(groups[i]) == key
    ensures |SameKey(ready - Members(groups), key)| < |SameKey(ready, key)|
  {
    var i :| 0 <= i < |groups| && LookupKey(groups[i]) == key;
    assert groups[i] in SameKey(ready, key) && groups[i] in Members(groups);
    StrictlySmaller(SameKey(ready, key), SameKey(ready - Members(groups), key), groups[i]);
  }

  // calls[i] is what the i-th of several uninterrupted ReadyJobs calls selects.
  ghost predicate CallRun(t: Tables, calls: seq<seq<GroupKey>>)
    decreases |calls|
  {
    calls == [] || (Selection(t, calls[0]) && AllIn(calls[0], t.groups.Keys) && CallRun(Completed(t, calls[0]), calls[1..]))
  }

  ghost function AfterCalls(t: Tables, calls: seq<seq<GroupKey>>): Tables
    requires CallRun(t, calls)
    decreases |calls|
  {
    if calls == [] then t else AfterCalls(Completed(t, calls[0]), calls[1..])
  }

  ghost function Emitted(calls: seq<seq<GroupKey>>): multiset<GroupKey> {
    if calls == [] then multiset{} else multiset(calls[0]) + Emitted(calls[1..])
  }

  lemma SelectionOnce(t: Tables, groups: seq<GroupKey>)
    requires Selection(t, groups)
    ensures multiset(groups) == multiset(Members(groups))
  {
    OnceEach(groups);
  }

  lemma {:induction false} OnceEach(groups: seq<GroupKey>)
    requires DistinctKeys(groups)
    ensures multiset(groups) == multiset(Members(groups))
  {
    if groups != [] {
      var front, last := groups[..|groups| - 1], groups[|groups| - 1];
      OnceEach(front);
      assert groups == front + [last];
      assert last !in front;
      assert Members(groups) == Members(front) + {last};
    }
  }

  // Nothing is lost or doubled: over any number of calls the ready groups are exactly
  // the emitted ones, each emitted once, and the ones still ready.
  lemma {:induction false} EmittedOnce(t: Tables, calls: seq<seq<GroupKey>>)
    requires CallRun(t, calls)
    ensures multiset(Ready(t)) == Emitted(calls) + multiset(Ready(AfterCalls(t, calls)))
    decreases |calls|
  {
    if calls != [] {
      var after := Completed(t, calls[0]);
      CallTakesSelection(t, calls[0]);
      SelectionOnce(t, calls[0]);
      EmittedOnce(after, calls[1..]);
      var taken := Members(calls[0]);
      assert taken <= Ready(t);
      SplitSet(Ready(t), taken);
    }
  }

  lemma SplitSet(all: set<GroupKey>, part: set<GroupKey>)
    requires part <= all
    ensures multiset(all) == multiset(part) + multiset(all - part)
  {
  }

  // The queue drains: m calls suffice when at most m ready groups share a key, so one call without clashes.
  lemma {:induction false} Drains(t: Tables, calls: seq<seq<GroupKey>>, m: nat)
    requires CallRun(t, calls) && ClashBound(Ready(t), m) && |calls| >= m
    ensures Ready(AfterCalls(t, calls)) == {}
    decreases |calls|
  {
    if m == 0 {
      NothingReady(t, calls);
    } else {
      CallLowersClash(t, calls[0], m);
      Drains(Completed(t, calls[0]), calls[1..], m - 1);
    }
  }

  lemma OwnKey(ready: set<GroupKey>, g: GroupKey)
    requires g in ready
    ensures |SameKey(ready, LookupKey(g))| > 0
  {
    assert g in SameKey(ready, LookupKey(g));
  }

  lemma {:induction false} NothingReady(t: Tables, calls: seq<seq<GroupKey>>)
    requires CallRun(t, calls) && ClashBound(Ready(t), 0)
    ensures Ready(AfterCalls(t, calls)) == {}
    decreases |calls|
  {
    if g :| g in Ready(t) {
      OwnKey(Ready(t), g);
    }
    if calls != [] {
      CallTakesSelection(t, calls[0]);
      NothingReady(Completed(t, calls[0]), calls[1..]);
    }
  }

  // ----- clashing keys -----

  // Two groups share a lookup key exactly when the dash between name and namespace can be moved:
  // one namespace is the other one with a dash and some text s in front, and s closes the other name.
  ghost predicate Shifted(g: GroupKey, h: GroupKey, s: string) {
    h.namespace == s + "-" + g.namespace && g.name == h.name + "-" + s
  }

  lemma ShiftedClash(g: GroupKey, h: GroupKey, s: string)
    requires Shifted(g, h, s)
    ensures g != h && LookupKey(g) == LookupKey(h)
  {
    assert LookupKey(g) == h.name + "-" + s + "-" + g.namespace;
    assert LookupKey(h) == h.name + "-" + (s + "-" + g.namespace);
    assert |h.namespace| > |g.namespace|;
  }

  lemma ShiftedHasDash(g: GroupKey, h: GroupKey, s: string)
    requires Shifted(g, h, s)
    ensures '-' in h.namespace
  {
    assert h.namespace[|s|] == '-';
  }

  lemma LongerNamespace(g: GroupKey, h: GroupKey) returns (s: string)
    requires LookupKey(g) == LookupKey(h) && |g.namespace| < |h.namespace|
    ensures Shifted(g, h, s)
  {
    var key := LookupKey(g);
    var a, b := |h.name|, |g.name|;
    assert key[..a] == h.name && key[..b] == g.name;
    assert key[a] == '-' && key[b] == '-';
    assert key[a + 1..] == h.namespace && key[b + 1..] == g.namespace;
    s := key[a + 1..b];
    assert g.name == key[..a] + [key[a]] + s;
    assert h.namespace == s + [key[b]] + key[b + 1..];
  }

  lemma SameLength(g: GroupKey, h: GroupKey)
    requires LookupKey(g) == LookupKey(h) && |g.namespace| == |h.namespace|
    ensures g == h
  {
    var n := |g.name|;
    assert LookupKey(g)[..n] == g.name && LookupKey(h)[..n] == h.name;
    assert LookupKey(g)[n + 1..] == g.namespace && LookupKey(h)[n + 1..] == h.namespace;
  }

  lemma ClashIff(g: GroupKey, h: GroupKey)
    ensures LookupKey(g) == LookupKey(h) <==> g == h || (exists s :: Shifted(g, h, s)) || (exists s :: Shifted(h, g, s))
  {
    if s :| Shifted(g, h, s) {
      ShiftedClash(g, h, s);
    } else if s :| Shifted(h, g, s) {
      ShiftedClash(h, g, s);
    } else if LookupKey(g) == LookupKey(h) {
      if |g.namespace| < |h.namespace| {
        var s := LongerNamespace(g, h);
      } else if |h.namespace| < |g.namespace| {
        var s := LongerNamespace(h, g);
      } else {
        SameLength(g, h);
      }
    }
  }

  // Namespaces without a dash never clash; "x-a" in namespace "b" and "x" in namespace "a-b" do.
  lemma DashFreeNamespaces(groups: set<GroupKey>)
    requires forall g :: g in groups ==> '-' !in g.namespace
    ensures NoClash(groups)
    ensures !NoClash({GroupKey("x-a", "b"), GroupKey("x", "a-b")})
  {
    forall g, h | g in groups && h in groups && LookupKey(g) == LookupKey(h) ensures g == h {
      ClashIff(g, h);
      if s :| Shifted(g, h, s) {
        ShiftedHasDash(g, h, s);
      } else if s :| Shifted(h, g, s) {
        ShiftedHasDash(h, g, s);
      }
    }
    var g, h := GroupKey("x-a", "b"), GroupKey("x", "a-b");
    assert "x" + "-" + "a" == "x-a" && "a" + "-" + "b" == "a-b";
    assert Shifted(g, h, "a");
    ShiftedClash(g, h, "a");
  }

  // ----- a tie, reached by two calls of Enqueue -----

  // Two groups of one pod each, both enqueued.
  ghost function BothEnqueued(before: Run, p: Pod, a: PodGroup, q: Pod, b: PodGroup): Run {
    Then(Then(before, Enqueued(p, a, 3)), Enqueued(q, b, 3))
  }

  ghost function TwoGroups(p: Pod, a: PodGroup, q: Pod, b: PodGroup): Run {
    BothEnqueued(Start, p, a, q, b)
  }

  // A first pod completes a group of one.
  lemma CompletesOne(t: Tables, p: Pod, a: PodGroup)
    requires a.size <= 1 && KeyOf(p, a) !in t.groups
    ensures var now := EnqueueSteps(t, p, a, 3);
      && now.pending == t.pending && now.groups.Keys == t.groups.Keys + {KeyOf(p, a)}
      && Ready(now) == Ready(t) + {KeyOf(p, a)} && Created(now, KeyOf(p, a)) == a.timestamp
      && forall g :: g in t.groups ==> Created(now, g) == Created(t, g)
  {
  }

  lemma BothReady(before: Run, p: Pod, a: PodGroup, q: Pod, b: PodGroup)
    requires Valid(before) && After(before).groups == map[]
    requires a.size <= 1 && b.size <= 1 && KeyOf(p, a) != KeyOf(q, b)
    ensures var run := BothEnqueued(before, p, a, q, b); Valid(run) && Ready(After(run)) == {KeyOf(p, a), KeyOf(q, b)}
    ensures var t := After(BothEnqueued(before, p, a, q, b));
      && Created(t, KeyOf(p, a)) == a.timestamp && Created(t, KeyOf(q, b)) == b.timestamp
      && t.groups.Keys == {KeyOf(p, a), KeyOf(q, b)} && t.pending == After(before).pending
  {
    var once := Then(before, Enqueued(p, a, 3));
    assert Valid(once);
    CompletesOne(After(before), p, a);
    CompletesOne(After(once), q, b);
  }

  lemma TiesOfTwo(t: Tables, g: GroupKey, h: GroupKey)
    requires Ready(t) == {g, h} && g != h && LookupKey(g) == LookupKey(h)
    ensures UniqueOldest(t) <==> Created(t, g) != Created(t, h)
    ensures TiesPending(t) <==> Created(t, g) != Created(t, h) || (g in t.pending && h in t.pending)
  {
    assert g in Ready(t) && h in Ready(t);
    assert Oldest(t, g) <==> Created(t, g) <= Created(t, h);
    assert Oldest(t, h) <==> Created(t, h) <= Created(t, g);
  }

  // If the keys of the two groups clash, a crash can leave a trace exactly when their timestamps are equal.
  lemma TieShowsInRun(p: Pod, a: PodGroup, q: Pod, b: PodGroup)
    requires a.size <= 1 && b.size <= 1 && KeyOf(p, a) != KeyOf(q, b) && LookupKey(KeyOf(p, a)) == LookupKey(KeyOf(q, b))
    ensures var run := TwoGroups(p, a, q, b); Valid(run) && (CrashInvisible(After(run)) <==> a.timestamp != b.timestamp)
  {
    BothReady(Start, p, a, q, b);
    var t, g, h := After(TwoGroups(p, a, q, b)), KeyOf(p, a), KeyOf(q, b);
    CrashInvisibleIff(t);
    TiesOfTwo(t, g, h);
  }

  // Group "x-a" in namespace "b" and group "x" in namespace "a-b", created in the same second: after a crash
  // between the inserts and the delete, a second call can leave the first group provisional and pending.
  lemma TieExample(timestamp: int) returns (first: seq<GroupKey>, second: seq<GroupKey>)
    ensures var g := GroupKey("x-a", "b");
      var run := TwoGroups(Pod("p", "b", ""), PodGroup("x-a", 1, 0, timestamp), Pod("q", "a-b", ""), PodGroup("x", 1, 0, timestamp));
      && Valid(run) && !CrashInvisible(After(run))
      && CrashAndRerun(After(run), first, |first|, second)
      && g in Rerun(After(run), first, |first|, second).groups && g in Rerun(After(run), first, |first|, second).pending
  {
    var p, a := Pod("p", "b", ""), PodGroup("x-a", 1, 0, timestamp);
    var q, b := Pod("q", "a-b", ""), PodGroup("x", 1, 0, timestamp);
    assert "x" + "-" + "a" == "x-a" && "a" + "-" + "b" == "a-b";
    var g, h := KeyOf(p, a), KeyOf(q, b);
    ShiftedClash(g, h, "a");
    TieShowsInRun(p, a, q, b);
    BothReady(Start, p, a, q, b);
    BothOldest(After(TwoGroups(p, a, q, b)), g, h);
    first, second := LeftInBoth(After(TwoGroups(p, a, q, b)), g, h);
  }

  lemma BothOldest(t: Tables, g: GroupKey, h: GroupKey)
    requires Ready(t) == {g, h} && Created(t, g) == Created(t, h)
    ensures Oldest(t, g) && Oldest(t, h)
  {
    assert g in Ready(t) && h in Ready(t);
  }

  // ----- a tie that no crash can show -----

  // Two groups are moved to pending, one after the other.
  ghost function BothMoved(run: Run, g: GroupKey, h: GroupKey): Run {
    Then(Then(run, Moved([g], 2)), Moved([h], 2))
  }

  lemma MoveOne(run: Run, g: GroupKey)
    requires Valid(run) && Oldest(After(run), g)
    requires forall h :: h in Ready(After(run)) ==> LookupKey(h) == LookupKey(g)
    ensures Valid(Then(run, Moved([g], 2)))
    ensures var was, now := After(run), After(Then(run, Moved([g], 2)));
      Ready(now) == Ready(was) - {g} && now.groups.Keys == was.groups.Keys - {g} && now.pending.Keys == was.pending.Keys + {g}
  {
    forall h | h in Ready(After(run)) ensures Represented(h, [g]) {
      assert LookupKey([g][0]) == LookupKey(h);
    }
    assert Selection(After(run), [g]);
    CompletedIs(After(run), [g]);
    CallTakesSelection(After(run), [g]);
    assert Members([g]) == {g};
  }

  lemma MoveBoth(run: Run, g: GroupKey, h: GroupKey)
    requires Valid(run) && After(run).groups.Keys == Ready(After(run)) == {g, h} && After(run).pending == map[]
    requires g != h && LookupKey(g) == LookupKey(h) && Created(After(run), g) == Created(After(run), h)
    ensures Valid(BothMoved(run, g, h))
    ensures After(BothMoved(run, g, h)).groups == map[] && After(BothMoved(run, g, h)).pending.Keys == {g, h}
  {
    BothOldest(After(run), g, h);
    MoveOne(run, g);
    var once := Then(run, Moved([g], 2));
    assert {g, h} - {g} == {h};
    OnlyOneReady(After(once), h);
    MoveOne(once, h);
  }

  lemma OnlyOneReady(t: Tables, g: GroupKey)
    requires Ready(t) == {g}
    ensures Oldest(t, g)
  {
    assert g in Ready(t);
  }

  // The pods of the two groups are enqueued again: then reruns need not agree, but no crash leaves a trace.
  lemma PendingTie(p: Pod, a: PodGroup, q: Pod, b: PodGroup)
    requires a.size <= 1 && b.size <= 1 && KeyOf(p, a) != KeyOf(q, b) && LookupKey(KeyOf(p, a)) == LookupKey(KeyOf(q, b))
    requires a.timestamp == b.timestamp
    ensures var run := BothEnqueued(BothMoved(TwoGroups(p, a, q, b), KeyOf(p, a), KeyOf(q, b)), p, a, q, b);
      Valid(run) && !RerunsAgree(After(run)) && CrashInvisible(After(run))
  {
    var g, h := KeyOf(p, a), KeyOf(q, b);
    BothReady(Start, p, a, q, b);
    var moved := BothMoved(TwoGroups(p, a, q, b), g, h);
    MoveBoth(TwoGroups(p, a, q, b), g, h);
    BothReady(moved, p, a, q, b);
    var t := After(BothEnqueued(moved, p, a, q, b));
    TiesOfTwo(t, g, h);
    RerunsAgreeIff(t);
    CrashInvisibleIff(t);
  }
}
