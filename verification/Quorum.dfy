/** Counting pods: what a group's count means over every run of Enqueue and ReadyJobs. */
module Quorum {
  import opened Collections
  import opened Options
  import opened Text
  import opened Tables
  import opened Provisional

  // One call and how many of its table statements were applied: 3 for a successful Enqueue, one more
  // than the number of groups for a successful ReadyJobs, fewer for a call that failed or crashed on the way.
  datatype Event =
    | Enqueued(pod: Pod, group: PodGroup, applied: nat)
    | Moved(groups: seq<GroupKey>, applied: nat)

  datatype Run = Start | Then(before: Run, event: Event)

  ghost predicate Valid(run: Run)
    decreases run, 0
  {
    match run
    case Start => true
    case Then(before, Enqueued(_, _, _)) => Valid(before)
    case Then(before, Moved(groups, _)) =>
      Valid(before) && Selection(After(before), groups) && AllIn(groups, After(before).groups.Keys)
  }

  ghost function After(run: Run): Tables
    requires Valid(run)
    decreases run, 1
  {
    match run
    case Start => Tables(map[], map[], map[])
    case Then(before, Enqueued(pod, group, applied)) => EnqueueSteps(After(before), pod, group, applied)
    case Then(before, Moved(groups, applied)) =>
      if groups == [] then After(before) else ReadySteps(After(before), groups, applied)
  }

  ghost predicate Deletes(event: Event, key: GroupKey) {
    event.Moved? && key in event.groups && event.applied > |event.groups|
  }

  ghost predicate Reaches(event: Event, key: GroupKey, statements: nat) {
    event.Enqueued? && KeyOf(event.pod, event.group) == key && event.applied >= statements
  }

  // ----- what the count counts -----

  // The pods counted by the group's present row: those of the successful calls since the row was created,
  // and those of the calls that failed right after the increment.
  ghost function Counted(run: Run, key: GroupKey): seq<string> {
    match run
    case Start => []
    case Then(before, event) =>
      var names := Counted(before, key);
      if Deletes(event, key) then []
      else if Reaches(event, key, 3) || (Reaches(event, key, 2) && names != []) then names + [event.pod.name]
      else names
  }

  ghost function Successes(run: Run, key: GroupKey): seq<string> {
    match run
    case Start => []
    case Then(before, event) =>
      if Deletes(event, key) then []
      else if Reaches(event, key, 3) then Successes(before, key) + [event.pod.name]
      else Successes(before, key)
  }

  // Calls that incremented the present row and failed afterwards.
  ghost function HalfFailed(run: Run, key: GroupKey): nat {
    match run
    case Start => 0
    case Then(before, event) =>
      if Deletes(event, key) then 0
      else if Reaches(event, key, 2) && !Reaches(event, key, 3) && Successes(before, key) != [] then HalfFailed(before, key) + 1
      else HalfFailed(before, key)
  }

  ghost predicate RowCounts(t: Tables, key: GroupKey, names: seq<string>) {
    && (key in t.groups <==> names != [])
    && (key in t.groups ==> t.groups[key].current == |names|)
    && (forall i :: 0 <= i < |names| ==> PodKey(key, names[i]) in t.pods)
  }

  lemma {:induction false} InsertedKeeps(t: Tables, groups: seq<GroupKey>, k: nat)
    requires k <= |groups| && AllIn(groups, t.groups.Keys)
    ensures Inserted(t, groups, k).groups == t.groups && Inserted(t, groups, k).pods == t.pods
  {
    if k > 0 {
      InsertedKeeps(t, groups, k - 1);
    }
  }

  lemma MovedKeeps(before: Run, groups: seq<GroupKey>, applied: nat)
    requires Valid(Then(before, Moved(groups, applied)))
    ensures var was, now := After(before), After(Then(before, Moved(groups, applied)));
      now.pods == was.pods && now.groups == was.groups - (if applied > |groups| then Members(groups) else {})
  {
    InsertedKeeps(After(before), groups, if applied <= |groups| then applied else |groups|);
    assert groups == [] ==> Members(groups) == {};
  }

  lemma EnqueueCounts(t: Tables, key: GroupKey, names: seq<string>, event: Event)
    requires event.Enqueued? && RowCounts(t, key, names)
    ensures RowCounts(EnqueueSteps(t, event.pod, event.group, event.applied), key,
                      if Reaches(event, key, 3) || (Reaches(event, key, 2) && names != []) then names + [event.pod.name] else names)
  {
  }

  // Over every run a group has a row exactly when it counts something, the row's count is the number
  // of counted calls, and each counted pod has its pod row.
  lemma {:induction false} CountIs(run: Run, key: GroupKey)
    requires Valid(run)
    ensures RowCounts(After(run), key, Counted(run, key))
  {
    match run
    case Start =>
    case Then(before, event) =>
      CountIs(before, key);
      match event
      case Enqueued(pod, group, applied) => EnqueueCounts(After(before), key, Counted(before, key), event);
      case Moved(groups, applied) => MovedKeeps(before, groups, applied);
  }

  // The successful call that created the group's present row.
  ghost function Creator(run: Run, key: GroupKey): Option<Event> {
    match run
    case Start => None
    case Then(before, event) =>
      if Deletes(event, key) then None
      else if Creator(before, key) == None && Reaches(event, key, 3) then Some(event)
      else Creator(before, key)
  }

  ghost predicate MadeBy(t: Tables, key: GroupKey, creator: Option<Event>) {
    && (key in t.groups <==> creator.Some?)
    && (key in t.groups && creator.value.Enqueued? ==>
         var row, group := t.groups[key], creator.value.group;
         && row.size == group.size && row.duration == group.duration && row.created == group.timestamp
         && row.podspec == creator.value.pod.spec)
    && (creator.Some? ==> creator.value.Enqueued?)
  }

  lemma EnqueueKeepsMaker(t: Tables, key: GroupKey, creator: Option<Event>, event: Event)
    requires event.Enqueued? && MadeBy(t, key, creator)
    ensures MadeBy(EnqueueSteps(t, event.pod, event.group, event.applied), key,
                   if creator == None && Reaches(event, key, 3) then Some(event) else creator)
  {
  }

  // A group's size, duration, creation time and podspec are those of the call that created its row;
  // later calls with other values change none of them.
  lemma {:induction false} RowIsCreators(run: Run, key: GroupKey)
    requires Valid(run)
    ensures MadeBy(After(run), key, Creator(run, key))
  {
    match run
    case Start =>
    case Then(before, event) =>
      RowIsCreators(before, key);
      match event
      case Enqueued(pod, group, applied) => EnqueueKeepsMaker(After(before), key, Creator(before, key), event);
      case Moved(groups, applied) => MovedKeeps(before, groups, applied);
  }

  // So a job made of the group carries that size and duration, and the podspec of one of the group's pods.
  lemma JobIsCreators(run: Run, key: GroupKey, job: JobArgs)
    requires Valid(run) && JobOf(After(run), key, job) && PodNames(After(run), key) != {}
    ensures Creator(run, key).Some? && Creator(run, key).value.Enqueued?
    ensures var group := Creator(run, key).value.group;
      && job.groupName == key.name && job.namespace == key.namespace
      && job.groupSize == group.size && job.duration == group.duration
    ensures exists name :: PodKey(key, name) in After(run).pods && After(run).pods[PodKey(key, name)] == job.podspec
  {
    RowIsCreators(run, key);
    var t := After(run);
    var names :| FromPods(t, key, job, names);
    var some :| some in PodNames(t, key);
    var last := names[|names| - 1];
    assert last in PodNames(t, key);
    var k :| k in t.pods && k.group == key && k.pod == last;
    assert PodKey(key, last) == k;
  }

  lemma {:induction false} CountSplits(run: Run, key: GroupKey)
    ensures |Counted(run, key)| == |Successes(run, key)| + HalfFailed(run, key)
    ensures Counted(run, key) == [] <==> Successes(run, key) == []
  {
    if run.Then? {
      CountSplits(run.before, key);
    }
  }

  // current_size is the number of successful Enqueue calls since the row was created
  // exactly when no call failed between its increment and its last statement.
  lemma CurrentIsSuccesses(run: Run, key: GroupKey)
    requires Valid(run) && key in After(run).groups
    ensures After(run).groups[key].current == |Successes(run, key)| + HalfFailed(run, key)
    ensures After(run).groups[key].current == |Successes(run, key)| <==> HalfFailed(run, key) == 0
  {
    CountIs(run, key);
    CountSplits(run, key);
  }

  lemma SuccessStep(before: Run, event: Event, key: GroupKey)
    requires event.Enqueued? && KeyOf(event.pod, event.group) == key
    ensures var run := Then(before, event);
      && Successes(run, key) == Successes(before, key) + (if event.applied >= 3 then [event.pod.name] else [])
      && HalfFailed(run, key) == HalfFailed(before, key) + if event.applied == 2 && Successes(before, key) != [] then 1 else 0
    ensures Successes(Start, key) == [] && HalfFailed(Start, key) == 0
  {
  }

  // A call that fails right after its increment is counted all the same: two pods of which one was refused
  // complete a group of two.
  lemma HalfFailedCounts(p: Pod, q: Pod, group: PodGroup)
    requires p.namespace == q.namespace && group.size == 2
    ensures var run, key := Then(Then(Start, Enqueued(p, group, 3)), Enqueued(q, group, 2)), KeyOf(p, group);
      && Valid(run) && HalfFailed(run, key) == 1 && Successes(run, key) == [p.name]
      && key in Ready(After(run)) && After(run).groups[key].current == 2
  {
    FirstEnqueue(p, group);
    var one, key := Then(Start, Enqueued(p, group, 3)), KeyOf(p, group);
    SuccessStep(Start, Enqueued(p, group, 3), key);
    SuccessStep(one, Enqueued(q, group, 2), key);
    assert Valid(one) && [] + [p.name] == [p.name];
    assert After(Then(one, Enqueued(q, group, 2))).groups[key].current == 2;
  }

  // ----- the quorum -----

  // How often Enqueue reached the increment for a pod, over the whole run.
  ghost function Times(run: Run, key: GroupKey, name: string): nat {
    match run
    case Start => 0
    case Then(before, event) =>
      Times(before, key, name) + if Reaches(event, key, 2) && event.pod.name == name then 1 else 0
  }

  ghost predicate EachPodOnce(run: Run, key: GroupKey) {
    forall name :: Times(run, key, name) <= 1
  }

  lemma {:induction false} CountedAtMost(run: Run, key: GroupKey, name: string)
    ensures multiset(Counted(run, key))[name] <= Times(run, key, name)
  {
    if run.Then? {
      CountedAtMost(run.before, key, name);
    }
  }

  lemma OnceIsDistinct(names: seq<string>)
    requires forall name :: multiset(names)[name] <= 1
    ensures Distinct(names)
  {
    forall i, j | 0 <= i < j < |names| ensures names[i] != names[j] {
      if names[i] == names[j] {
        RepeatedTwice(names, i, j);
      }
    }
  }

  lemma CountedHaveRows(run: Run, key: GroupKey)
    requires Valid(run)
    ensures Members(Counted(run, key)) <= PodNames(After(run), key)
  {
    CountIs(run, key);
    var t := After(run);
    forall n | n in Counted(run, key) ensures n in PodNames(t, key) {
      assert PodKey(key, n) in t.pods && PodKey(key, n).pod == n;
    }
  }

  // No pod enqueued twice over the whole run is more than enough.
  lemma EnqueuedOnce(run: Run, key: GroupKey)
    requires EachPodOnce(run, key)
    ensures Distinct(Counted(run, key))
  {
    var counted := Counted(run, key);
    forall name ensures multiset(counted)[name] <= 1 {
      CountedAtMost(run, key, name);
    }
    OnceIsDistinct(counted);
  }

  // If no pod was counted twice since the group's row was created, the count never exceeds the group's pod rows,
  // so that every job made of a ready group names at least GroupSize distinct pods.
  lemma QuorumReached(run: Run, key: GroupKey, names: seq<string>)
    requires Valid(run) && Distinct(Counted(run, key)) && key in After(run).groups
    requires Lists(names, PodNames(After(run), key))
    ensures After(run).groups[key].current <= |names| && Distinct(names)
    ensures key in Ready(After(run)) ==> After(run).groups[key].size <= |names|
  {
    var counted := Counted(run, key);
    DistinctSize(counted);
    CountedHaveRows(run, key);
    SubsetSize(Members(counted), PodNames(After(run), key));
    CountIs(run, key);
    ListSize(names, PodNames(After(run), key));
  }

  // ----- exactly when the count is right -----

  // The pods of all calls that got as far as the first statement, since the beginning.
  ghost function Tried(run: Run, key: GroupKey): set<string> {
    match run
    case Start => {}
    case Then(before, event) => Tried(before, key) + if Reaches(event, key, 1) then {event.pod.name} else {}
  }

  lemma {:induction false} PodRowIff(run: Run, key: GroupKey, name: string)
    requires Valid(run)
    ensures PodKey(key, name) in After(run).pods <==> name in Tried(run, key)
  {
    match run
    case Start =>
    case Then(before, event) =>
      PodRowIff(before, key, name);
      match event
      case Enqueued(pod, group, applied) => EnqueueKeepsPods(After(before), pod, group, applied);
      case Moved(groups, applied) => MovedKeeps(before, groups, applied);
  }

  // A group's pod rows are those of all pods ever tried, also of failed calls and of earlier rounds.
  lemma PodNamesAre(run: Run, key: GroupKey)
    requires Valid(run)
    ensures PodNames(After(run), key) == Tried(run, key)
  {
    var t := After(run);
    forall n ensures n in PodNames(t, key) <==> n in Tried(run, key) {
      PodRowIff(run, key, n);
      if PodKey(key, n) in t.pods {
        assert PodKey(key, n).pod == n;
      }
    }
  }

  // Every call for the group succeeded and its row was never moved away.
  ghost predicate FirstRound(run: Run, key: GroupKey) {
    match run
    case Start => true
    case Then(before, event) =>
      && FirstRound(before, key) && !Deletes(event, key)
      && (event.Enqueued? && KeyOf(event.pod, event.group) == key ==> event.applied >= 3)
  }

  lemma {:induction false} FirstRoundTried(run: Run, key: GroupKey)
    requires FirstRound(run, key)
    ensures Tried(run, key) == Members(Counted(run, key))
  {
    match run
    case Start =>
    case Then(before, event) => FirstRoundTried(before, key);
  }

  // Over every run the count is covered by pod rows exactly when the calls counted since the row was created
  // are at most as many as the pods ever tried; in a first round without failures, when no pod was enqueued twice.
  lemma CountCoveredIff(run: Run, key: GroupKey)
    requires Valid(run) && key in After(run).groups
    ensures After(run).groups[key].current <= |PodNames(After(run), key)| <==> |Counted(run, key)| <= |Tried(run, key)|
    ensures FirstRound(run, key) ==>
      (After(run).groups[key].current <= |PodNames(After(run), key)| <==> Distinct(Counted(run, key)))
  {
    CountIs(run, key);
    PodNamesAre(run, key);
    DistinctSize(Counted(run, key));
    if FirstRound(run, key) {
      FirstRoundTried(run, key);
    }
  }

  lemma FirstEnqueue(pod: Pod, group: PodGroup)
    ensures var t := After(Then(Start, Enqueued(pod, group, 3)));
      && t.pods == map[PodKey(KeyOf(pod, group), pod.name) := pod.spec]
      && t.groups == map[KeyOf(pod, group) := GroupRow(group.size, group.duration, pod.spec, 1, group.timestamp)]
  {
    assert After(Start) == Tables(map[], map[], map[]);
  }

  // The same pod enqueued twice makes a group of size two ready with one pod.
  lemma EnqueuedTwice(pod: Pod, group: PodGroup)
    requires group.size == 2
    ensures var t := After(Then(Then(Start, Enqueued(pod, group, 3)), Enqueued(pod, group, 3)));
      KeyOf(pod, group) in Ready(t) && PodNames(t, KeyOf(pod, group)) == {pod.name}
  {
    var key := KeyOf(pod, group);
    FirstEnqueue(pod, group);
    var one := Then(Start, Enqueued(pod, group, 3));
    var t := After(Then(one, Enqueued(pod, group, 3)));
    assert t.pods == After(one).pods && t.groups[key].current == 2;
    assert PodNames(t, key) == {PodKey(key, pod.name).pod};
  }

  // ----- pod rows outlive their group row -----

  lemma EnqueueKeepsPods(t: Tables, pod: Pod, group: PodGroup, k: nat)
    ensures EnqueueSteps(t, pod, group, k).pods == if k == 0 then t.pods else InsertPod(t, pod, group).pods
  {
  }

  lemma PodRowsStay(before: Run, event: Event)
    requires Valid(Then(before, event))
    ensures After(before).pods.Keys <= After(Then(before, event)).pods.Keys
    ensures forall k :: k in After(before).pods ==> After(Then(before, event)).pods[k] == After(before).pods[k]
  {
    if event.Moved? {
      MovedKeeps(before, event.groups, event.applied);
    } else {
      EnqueueKeepsPods(After(before), event.pod, event.group, event.applied);
    }
  }

  ghost predicate Extends(run: Run, later: Run) {
    run == later || (later.Then? && Extends(run, later.before))
  }

  // Every pod counted at any time is named by every later job of its group, also after its own job was emitted.
  lemma {:induction false} NamedEverAfter(run: Run, later: Run, key: GroupKey, name: string)
    requires Valid(later) && Extends(run, later)
    ensures Valid(run)
    ensures name in Counted(run, key) ==> name in PodNames(After(later), key)
  {
    if run == later {
      CountedHaveRows(run, key);
    } else {
      NamedEverAfter(run, later.before, key, name);
      PodRowsStay(later.before, later.event);
      var had, has := After(later.before), After(later);
      if name in PodNames(had, key) {
        var k :| k in had.pods && k.group == key && k.pod == name;
        assert k in has.pods;
      }
    }
  }

  // ----- no group is lost -----

  ghost predicate Known(t: Tables, key: GroupKey) {
    key in t.groups || key in t.pending
  }

  lemma {:induction false} InsertedPending(t: Tables, groups: seq<GroupKey>, k: nat)
    requires k <= |groups| && AllIn(groups, t.groups.Keys)
    ensures t.pending.Keys <= Inserted(t, groups, k).pending.Keys
    ensures forall i :: 0 <= i < k ==> groups[i] in Inserted(t, groups, k).pending
  {
    if k > 0 {
      InsertedPending(t, groups, k - 1);
    }
  }

  lemma MovedKnown(t: Tables, groups: seq<GroupKey>, applied: nat, key: GroupKey)
    requires AllIn(groups, t.groups.Keys) && Known(t, key)
    ensures Known(ReadySteps(t, groups, applied), key)
  {
    var k := if applied <= |groups| then applied else |groups|;
    InsertedKeeps(t, groups, k);
    InsertedPending(t, groups, k);
  }

  lemma EnqueueKnown(t: Tables, pod: Pod, group: PodGroup, applied: nat, key: GroupKey)
    requires Known(t, key)
    ensures Known(EnqueueSteps(t, pod, group, applied), key)
  {
  }

  lemma StaysKnown(before: Run, event: Event, key: GroupKey)
    requires Valid(Then(before, event)) && Known(After(before), key)
    ensures Known(After(Then(before, event)), key)
  {
    match event
    case Enqueued(pod, group, applied) => EnqueueKnown(After(before), pod, group, applied, key);
    case Moved(groups, applied) => MovedKnown(After(before), groups, applied, key);
  }

  // Over every run, with calls failing or crashing anywhere, a group that once had a row
  // is in the group table or in the pending queue ever after.
  lemma {:induction false} NeverLost(run: Run, later: Run, key: GroupKey)
    requires Valid(later) && Extends(run, later)
    ensures Valid(run)
    ensures Known(After(run), key) ==> Known(After(later), key)
  {
    if run != later {
      NeverLost(run, later.before, key);
      if Known(After(later.before), key) {
        StaysKnown(later.before, later.event, key);
      }
    }
  }
}
