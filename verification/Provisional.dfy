/** The provisional queue: Enqueue counts the pods of a group, ReadyJobs moves full groups to pending. */
module Provisional {
  import opened Collections
  import opened Text
  import opened Tables

  datatype EnqueueStatus = PodEnqueueSuccess | PodInvalid | Unknown

  datatype JobArgs = JobArgs(groupName: string, namespace: string, groupSize: int, duration: int, podspec: string, names: string)
  {
    function Group(): GroupKey {
      GroupKey(groupName, namespace)
    }
  }

  // The key of the lookup map in getReadyGroups.
  function LookupKey(g: GroupKey): string {
    g.name + "-" + g.namespace
  }

  // ----- the table after part of an operation -----

  // Enqueue's table statements, of which the first k were applied.
  function EnqueueSteps(t: Tables, pod: Pod, group: PodGroup, k: nat): Tables {
    if k == 0 then t
    else if k == 1 then InsertPod(t, pod, group)
    else if k == 2 then IncrementGroup(InsertPod(t, pod, group), KeyOf(pod, group))
    else InsertGroup(IncrementGroup(InsertPod(t, pod, group), KeyOf(pod, group)), pod, group)
  }

  ghost predicate AllIn(groups: seq<GroupKey>, all: set<GroupKey>) {
    forall i :: 0 <= i < |groups| ==> groups[i] in all
  }

  // The first k inserts into the pending queue, for groups that still have their row.
  ghost function Inserted(t: Tables, groups: seq<GroupKey>, k: nat): Tables
    requires k <= |groups| && AllIn(groups, t.groups.Keys)
  {
    if k == 0 then t else InsertPending(Inserted(t, groups, k - 1), groups[k - 1], t.groups[groups[k - 1]].size)
  }

  // ReadyJobs' table statements, of which the first k were applied: one insert for each group, then one delete.
  ghost function ReadySteps(t: Tables, groups: seq<GroupKey>, k: nat): Tables
    requires AllIn(groups, t.groups.Keys)
  {
    if k <= |groups| then Inserted(t, groups, k)
    else DeleteGroups(Inserted(t, groups, |groups|), Members(groups))
  }

  ghost function Completed(t: Tables, groups: seq<GroupKey>): Tables
    requires AllIn(groups, t.groups.Keys)
  {
    if groups == [] then t else ReadySteps(t, groups, |groups| + 1)
  }

  // ----- what ReadyJobs may select -----

  ghost predicate Represented(g: GroupKey, groups: seq<GroupKey>) {
    exists i :: 0 <= i < |groups| && LookupKey(groups[i]) == LookupKey(g)
  }

  ghost predicate DistinctKeys(groups: seq<GroupKey>) {
    forall i, j :: 0 <= i < j < |groups| ==> LookupKey(groups[i]) != LookupKey(groups[j])
  }

  ghost predicate Covers(groups: seq<GroupKey>, ready: set<GroupKey>) {
    forall g :: g in ready ==> Represented(g, groups)
  }

  // A ready group that no other ready group with its lookup key was created before.
  ghost predicate Oldest(t: Tables, g: GroupKey) {
    && g in Ready(t)
    && forall h :: h in Ready(t) && LookupKey(h) == LookupKey(g) ==> Created(t, g) <= Created(t, h)
  }

  // One ready group for each lookup key, and with a key clash the oldest: its row is listed last and overwrites
  // the others in the lookup map.  Only a tie for the oldest leaves a choice.
  ghost predicate Selection(t: Tables, groups: seq<GroupKey>) {
    && AllIn(groups, Ready(t)) && Covers(groups, Ready(t)) && DistinctKeys(groups)
    && forall i :: 0 <= i < |groups| ==> Oldest(t, groups[i])
  }

  function SpecOf(t: Tables, g: GroupKey, name: string): string {
    if PodKey(g, name) in t.pods then t.pods[PodKey(g, name)] else ""
  }

  // The pod rows in some order: all their names, and the spec of the last one.
  ghost predicate FromPods(t: Tables, g: GroupKey, job: JobArgs, names: seq<string>) {
    && Lists(names, PodNames(t, g)) && job.names == Join(names, ',')
    && job.podspec == if names == [] then "" else SpecOf(t, g, names[|names| - 1])
  }

  // The job made of a ready group.
  ghost predicate JobOf(t: Tables, g: GroupKey, job: JobArgs) {
    && g in t.groups && job.Group() == g
    && job.groupSize == t.groups[g].size && job.duration == t.groups[g].duration
    && exists names :: FromPods(t, g, job, names)
  }

  ghost function Groups(jobs: seq<JobArgs>): (groups: seq<GroupKey>)
    ensures |groups| == |jobs|
  {
    seq(|jobs|, i requires 0 <= i < |jobs| => jobs[i].Group())
  }

  ghost predicate JobsOf(t: Tables, jobs: seq<JobArgs>) {
    forall i :: 0 <= i < |jobs| ==> JobOf(t, jobs[i].Group(), jobs[i])
  }

  class ProvisionalQueue {
    const db: Database

    constructor (db: Database)
      ensures this.db == db
    {
      this.db := db;
    }

    // errAt is the statement that fails: 0 the pending check, 1 .. 3 the table statements; 4 or more means none.
    // The pending check never rejects: the tag of a select contains no "INSERT 1".
    method Enqueue(pod: Pod, group: PodGroup, marshals: bool, errAt: nat) returns (status: EnqueueStatus)
      modifies db
      ensures status == if errAt == 0 then Unknown else if !marshals then PodInvalid
                        else if errAt <= 3 then Unknown else PodEnqueueSuccess
      ensures db.View() == EnqueueSteps(old(db.View()), pod, group, if errAt == 0 || !marshals then 0 else errAt - 1)
    {
      if errAt == 0 {
        return Unknown;
      }
      if !marshals {
        return PodInvalid;
      }
      if errAt == 1 {
        return Unknown;
      }
      db.InsertIntoProvisional(pod, group);
      if errAt == 2 {
        return Unknown;
      }
      db.IncrementGroupProvisional(KeyOf(pod, group));
      if errAt == 3 {
        return Unknown;
      }
      db.InsertIntoGroupProvisional(pod, group);
      return PodEnqueueSuccess;
    }

    method MakeJob(g: GroupKey) returns (job: JobArgs)
      requires g in db.groups
      ensures JobOf(db.View(), g, job)
    {
      var pods := db.SelectPods(g);
      var podlist: seq<string> := [];
      var podspec := "";
      for i := 0 to |pods|
        invariant podlist == pods[..i]
        invariant podspec == if i == 0 then "" else SpecOf(db.View(), g, pods[i - 1])
      {
        podspec := db.pods[PodKey(g, pods[i])];
        podlist := podlist + [pods[i]];
      }
      assert podlist == pods;
      job := JobArgs(g.name, g.namespace, db.groups[g].size, db.groups[g].duration, podspec, Join(podlist, ','));
      assert FromPods(db.View(), g, job, pods);
    }

    // The lookup map of getReadyGroups: with a key clash the later row overwrites the earlier one.
    method BuildLookup(models: seq<GroupKey>) returns (lookup: map<string, JobArgs>)
      requires forall i :: 0 <= i < |models| ==> models[i] in Ready(db.View())
      ensures LookupOf(db.View(), models, lookup)
    {
      lookup := map[];
      for i := 0 to |models|
        invariant LookupOf(db.View(), models[..i], lookup)
      {
        assert models[i] in Ready(db.View());
        var job := MakeJob(models[i]);
        LookupOneMore(db.View(), models[..i], lookup, models[i], job);
        assert models[..i] + [models[i]] == models[..i + 1];
        lookup := lookup[LookupKey(models[i]) := job];
      }
      assert models[..|models|] == models;
    }

    method GetReadyGroups() returns (jobs: seq<JobArgs>)
      ensures JobsOf(db.View(), jobs) && Selection(db.View(), Groups(jobs))
    {
      var models := db.SelectGroupsAtSize();
      var lookup := BuildLookup(models);
      var keys := ListOf(lookup.Keys);
      jobs := [];
      for i := 0 to |keys|
        invariant |jobs| == i && forall j :: 0 <= j < i ==> keys[j] in lookup && jobs[j] == lookup[keys[j]]
      {
        jobs := jobs + [lookup[keys[i]]];
      }
      LookupSelects(db.View(), lookup, keys, models, jobs);
    }

    method InsertPendingAll(jobs: seq<JobArgs>, errAt: nat) returns (err: bool)
      requires JobsOf(db.View(), jobs) && AllIn(Groups(jobs), db.View().groups.Keys)
      modifies db`pending
      ensures err <==> errAt < |jobs|
      ensures db.View() == Inserted(old(db.View()), Groups(jobs), if errAt < |jobs| then errAt else |jobs|)
    {
      ghost var t, groups := db.View(), Groups(jobs);
      for i := 0 to |jobs|
        invariant i <= errAt && db.View() == Inserted(t, groups, i)
      {
        if i == errAt {
          return true;
        }
        assert JobOf(t, jobs[i].Group(), jobs[i]) && groups[i] == jobs[i].Group();
        db.InsertIntoPending(jobs[i].Group(), jobs[i].groupSize);
      }
      return false;
    }

    method DeleteAll(jobs: seq<JobArgs>)
      modifies db`groups
      ensures db.View() == DeleteGroups(old(db.View()), Members(Groups(jobs)))
    {
      var keys: set<GroupKey> := {};
      for i := 0 to |jobs|
        invariant forall g :: g in keys <==> exists j :: 0 <= j < i && jobs[j].Group() == g
      {
        keys := keys + {jobs[i].Group()};
      }
      MembersOf(jobs, keys);
      db.DeleteProvisionalGroups(keys);
    }

    // errAt is the table statement of ReadyJobs that fails, counted from 0.
    method ReadyJobs(errAt: nat) returns (jobs: seq<JobArgs>, err: bool, ghost selected: seq<JobArgs>)
      modifies db
      ensures JobsOf(old(db.View()), selected) && Selection(old(db.View()), Groups(selected))
      ensures AllIn(Groups(selected), old(db.View()).groups.Keys)
      ensures err <==> selected != [] && errAt <= |selected|
      ensures jobs == if selected != [] && errAt < |selected| then [] else selected
      ensures db.View() == if errAt <= |selected| && selected != [] then ReadySteps(old(db.View()), Groups(selected), errAt)
                           else Completed(old(db.View()), Groups(selected))
    {
      var found := GetReadyGroups();
      ReadyAreGroups(db.View(), Groups(found));
      selected := found;
      if |found| == 0 {
        return [], false, selected;
      }
      err := InsertPendingAll(found, errAt);
      if err {
        return [], true, selected;
      }
      if errAt == |found| {
        return found, true, selected;
      }
      DeleteAll(found);
      return found, false, selected;
    }
  }

  // g is the last row with its lookup key.
  ghost predicate LastAt(models: seq<GroupKey>, g: GroupKey, i: int) {
    && 0 <= i < |models| && models[i] == g
    && forall j :: i < j < |models| ==> LookupKey(models[j]) != LookupKey(g)
  }

  ghost predicate LastOf(models: seq<GroupKey>, g: GroupKey) {
    exists i :: LastAt(models, g, i)
  }

  // Under the key of each row, the job of the last row with that key.
  ghost predicate LookupOf(t: Tables, models: seq<GroupKey>, lookup: map<string, JobArgs>) {
    && (forall i :: 0 <= i < |models| ==> LookupKey(models[i]) in lookup)
    && (forall key :: key in lookup ==> LookupEntry(t, models, key, lookup[key]))
  }

  ghost predicate LookupEntry(t: Tables, models: seq<GroupKey>, key: string, job: JobArgs) {
    LastOf(models, job.Group()) && LookupKey(job.Group()) == key && JobOf(t, job.Group(), job)
  }

  lemma StillLast(models: seq<GroupKey>, g: GroupKey, next: GroupKey)
    requires LastOf(models, g) && LookupKey(next) != LookupKey(g)
    ensures LastOf(models + [next], g)
  {
    var i :| LastAt(models, g, i);
    assert LastAt(models + [next], g, i);
  }

  lemma LookupOneMore(t: Tables, models: seq<GroupKey>, lookup: map<string, JobArgs>, next: GroupKey, job: JobArgs)
    requires LookupOf(t, models, lookup) && JobOf(t, next, job)
    ensures LookupOf(t, models + [next], lookup[LookupKey(next) := job])
  {
    var more, larger := models + [next], lookup[LookupKey(next) := job];
    forall key | key in larger ensures LookupEntry(t, more, key, larger[key]) {
      if key == LookupKey(next) {
        assert LastAt(more, next, |models|);
      } else {
        assert LookupEntry(t, models, key, lookup[key]);
        StillLast(models, lookup[key].Group(), next);
      }
    }
  }

  lemma LastIsOldest(t: Tables, models: seq<GroupKey>, g: GroupKey)
    requires Listing(t, models) && LastOf(models, g)
    ensures Oldest(t, g)
  {
    var i :| LastAt(models, g, i);
    forall h | h in Ready(t) && LookupKey(h) == LookupKey(g) ensures Created(t, g) <= Created(t, h) {
      var j :| 0 <= j < |models| && models[j] == h;
    }
  }

  lemma LookupSelects(t: Tables, lookup: map<string, JobArgs>, keys: seq<string>, models: seq<GroupKey>, jobs: seq<JobArgs>)
    requires Listing(t, models) && LookupOf(t, models, lookup) && Lists(keys, lookup.Keys)
    requires |jobs| == |keys| && forall i :: 0 <= i < |keys| ==> keys[i] in lookup && jobs[i] == lookup[keys[i]]
    ensures JobsOf(t, jobs) && Selection(t, Groups(jobs))
  {
    var groups := Groups(jobs);
    forall i | 0 <= i < |groups|
      ensures Oldest(t, groups[i]) && LookupKey(groups[i]) == keys[i] && JobOf(t, groups[i], jobs[i])
    {
      assert groups[i] == lookup[keys[i]].Group() && LookupEntry(t, models, keys[i], lookup[keys[i]]);
      LastIsOldest(t, models, groups[i]);
    }
    forall g | g in Ready(t) ensures Represented(g, groups) {
      var j :| 0 <= j < |models| && models[j] == g;
      assert LookupKey(g) in lookup.Keys;
      var i :| 0 <= i < |keys| && keys[i] == LookupKey(g);
      assert LookupKey(groups[i]) == LookupKey(g);
    }
  }

  // ----- every selection can happen -----

  lemma {:induction false} RankedListing(all: set<GroupKey>, rank: GroupKey -> int) returns (rows: seq<GroupKey>)
    ensures Lists(rows, all)
    ensures forall i, j :: 0 <= i < j < |rows| ==> rank(rows[j]) <= rank(rows[i])
  {
    rows := [];
    if all != {} {
      var x := LargestExists(all, rank);
      var rest := RankedListing(all - {x}, rank);
      rows := [x] + rest;
    }
  }

  // Newest first, and among equals the selected group last.
  ghost function Rank(t: Tables, groups: seq<GroupKey>, g: GroupKey): int {
    2 * Created(t, g) + if g in groups then 0 else 1
  }

  lemma RankedLast(t: Tables, groups: seq<GroupKey>, i: nat, models: seq<GroupKey>)
    requires Selection(t, groups) && i < |groups| && Lists(models, Ready(t))
    requires forall j, k :: 0 <= j < k < |models| ==> Rank(t, groups, models[k]) <= Rank(t, groups, models[j])
    ensures LastOf(models, groups[i])
  {
    var g := groups[i];
    assert Oldest(t, g);
    var at :| 0 <= at < |models| && models[at] == g;
    forall j | at < j < |models| ensures LookupKey(models[j]) != LookupKey(g) {
      assert Rank(t, groups, models[j]) <= Rank(t, groups, models[at]);
      OnlyOne(groups, i, models[j]);
    }
    assert LastAt(models, g, at);
  }

  // Whatever groups a Selection names, some row order of the query lists each of them last with its key.
  lemma SelectionHappens(t: Tables, groups: seq<GroupKey>) returns (models: seq<GroupKey>)
    requires Selection(t, groups)
    ensures Listing(t, models) && forall i :: 0 <= i < |groups| ==> LastOf(models, groups[i])
  {
    models := RankedListing(Ready(t), g => Rank(t, groups, g));
    forall i, j | 0 <= i < j < |models| ensures Created(t, models[j]) <= Created(t, models[i]) {
      assert Rank(t, groups, models[j]) <= Rank(t, groups, models[i]);
    }
    forall i | 0 <= i < |groups| ensures LastOf(models, groups[i]) {
      RankedLast(t, groups, i, models);
    }
  }

  lemma OnlyOne(groups: seq<GroupKey>, i: nat, h: GroupKey)
    requires DistinctKeys(groups) && i < |groups|
    ensures h in groups && LookupKey(h) == LookupKey(groups[i]) ==> h == groups[i]
  {
  }

  lemma MembersOf(jobs: seq<JobArgs>, keys: set<GroupKey>)
    requires forall g :: g in keys <==> exists j :: 0 <= j < |jobs| && jobs[j].Group() == g
    ensures keys == Members(Groups(jobs))
  {
    forall g ensures g in keys <==> g in Groups(jobs) {
      if g in keys {
        var j :| 0 <= j < |jobs| && jobs[j].Group() == g;
        assert Groups(jobs)[j] == g;
      }
      if g in Groups(jobs) {
        var j :| 0 <= j < |jobs| && Groups(jobs)[j] == g;
        assert jobs[j].Group() == g;
      }
    }
  }

  lemma ReadyAreGroups(t: Tables, groups: seq<GroupKey>)
    requires AllIn(groups, Ready(t))
    ensures AllIn(groups, t.groups.Keys)
  {
  }
}
