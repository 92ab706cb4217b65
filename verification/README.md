# Fluxnetes scheduler: a verified model

Fluxnetes replaces the queue of the Kubernetes scheduler by a gang queue in Postgres, asks Fluxion for an
allocation, and binds the pods of a group to the allocated nodes. This project models the way of a pod from
the queue to its node and proves what the program is for. It has four parts.

1. **Node search and choice** (`schedule_one.go`): the parallel filter search as a transition system whose runs
   are all interleavings (`SearchSteps`, `FilterSearch`, `SearchProgress`, `SearchOutcome`), the search bound in
   int32 arithmetic (`SearchBound`), the rotating start index over successive cycles (`Rotation`), the extender
   fold (`ExtenderFilters`, in `Extenders.dfy`), the merge of the extenders' scores (`ExtenderScores`),
   `container/heap` on an array (`ScoreHeap`), the reservoir draws (`Reservoir`), `selectHost` with its caller
   (`SelectHost`), and the whole cycle from the node list to the suggested host (`Scheduling`).
2. **The gang queue** (`provisional.go`, `queries.go`): the tables as maps with one atomic method per SQL
   statement (`Tables`), `Enqueue` and `ReadyJobs` with a failure at any statement (`Provisional`), crash safety,
   idempotence and draining (`QueueSafety`), and what the counter counts over every run (`Quorum`).
3. **Allocation to binding**: the jobspec that is asked for (`Jobspec`), the parsed allocation, the division into
   tasks and the node list (`Allocation`), and the bind loop (`Binding`). `Binding.GangBinding` joins this with
   the quorum.
4. **The resource graph**: the graph class and its counters (`Jgf`), containment paths with `path.Clean` (`Paths`),
   what a node offers (`Capacity`), the builder (`GraphBuilder`), the proof that ids, edges and path strings
   describe one tree (`GraphTree`, `GraphPaths`), what each cluster node adds to it (`GraphContents`) and that it
   shows the node's capacity (`Advertised`), and what the allocation parser makes of its vertex order (`ReadBack`).

`Collections`, `Text`, `GoInt`, `Quantities` and `Options` hold what several parts share: repetition and size of
lists and sets, joining and splitting, decimal numerals, wrapping integers, resource quantities. Code that
changes state in place is a class or an array method proved equal to a function on values; the lemmas then say
what that function means.

Some properties one may expect of the code are false. For each there is a lemma with an input that breaks it,
and the exact condition under which it holds:

- What a crash in `ReadyJobs` and another call leave behind could have been left behind by one uninterrupted call,
  whatever the crash and the choices, exactly when every group that ties with another one for the oldest with its
  lookup key is pending already (`QueueSafety.CrashInvisibleIff`). Otherwise a group can end up both provisional and
  pending, which `QueueSafety.TieExample` reaches. It is always what the interrupted call was heading for exactly when
  there is no tie at all (`QueueSafety.RerunsAgreeIff`); `QueueSafety.PendingTie` reaches tables that tell the two
  apart. Only groups that share a lookup key can tie, and `QueueSafety.ClashIff` says which do.
- No node can be missed for ever by the rotation, whatever the interleavings and verdicts, exactly when at most one
  node fewer is wanted than there are (`Rotation.CanStarveIff`); otherwise any node can be missed by any number of
  successive cycles (`Rotation.OutOfOrderStarves`). With pieces taken in order every node is reached
  (`Rotation.NoNodeStarves`). Here pieces may be taken in any order; the parallelizer hands them out in chunks, and a
  worker takes those of a chunk in order, so that in the program want + 2 <= n need not endanger every node.
- The count of a group is covered by its pods exactly when no more calls were counted than pods were ever tried, in a
  first round when no pod was enqueued twice (`Quorum.CountCoveredIff`). The bind loop stays in range exactly when
  the group has as many pod rows as its size (`Binding.InRangeIff`); a pod enqueued twice makes it panic
  (`Binding.TwiceEnqueuedPanics`).
- A group's count is its number of successful calls exactly when no call failed right after its increment
  (`Quorum.CurrentIsSuccesses`, `Quorum.HalfFailedCounts`).
- Read back by `ParseAllocResult`, the built graph gives every node the cores of the node before it, which is right
  exactly when no included node has a core (`ReadBack.ReadBackIff`, `ReadBack.OneNodeReadWrongly`).
- Containment paths are distinct exactly when the subnet names are (`GraphPaths.PathsDistinctIff`,
  `GraphPaths.ZonesClash`, `GraphPaths.ThirteenNodesClash`).
- The root vertex is named like the root of all paths exactly for a cluster not called "cluster"
  (`Jgf.RootNameIff`).
- The search bound is the intended one exactly when the product fits an int32 (`SearchBound.BoundIsIdeal`,
  `SearchBound.BoundIsIdealUpTo`), yet it lies between min(n, 100) and n for every int32 node count
  (`SearchBound.BoundRange`).

Two more things a reader may not expect: the test `len(nodes) > 0` in the bind loop always holds, so a job without
tasks binds a pod to node "" (`Binding.NoTasksStillBinds`), and a cancelled job ends the event loop for good
(`Binding.CancelEndsBinding`).

## Model

| member | source | states |
|---|---|---|
| `FilterSearch.EveryRunKeepsInv` | kubernetes/pkg/scheduler/schedule_one.go:609-642 | In every interleaving of the workers the counter is the number of slot holders plus the overshoot still to be taken back, holders have different slots without gaps, and every piece did what its verdict calls for; no slot index leaves its range |
| `FilterSearch.CounterBound` | kubernetes/pkg/scheduler/schedule_one.go:619-625 | At every point the counter is at most the number of nodes and at most the wanted number plus the calls about to take their add back; it is above the wanted number only when all wanted slots are held |
| `FilterSearch.SlotWrittenOnce` | kubernetes/pkg/scheduler/schedule_one.go:619-625 | A slot about to be written is in range, still empty, and held by no other worker |
| `FilterSearch.FinishedList` | kubernetes/pkg/scheduler/schedule_one.go:604-643 | Once all workers are done, the list up to the counter has no gap and no repeat, holds exactly the kept nodes, all of which passed the filter, and is no longer than wanted |
| `FilterSearch.ListedNode` | kubernetes/pkg/scheduler/schedule_one.go:612-625 | Entry k of the finished list is nodes[(start + i) % n] for a piece i whose node passed |
| `FilterSearch.FinishedResults` | kubernetes/pkg/scheduler/schedule_one.go:626-628 | Once all workers are done, a result is recorded exactly for the pieces whose node was rejected, with that reason |
| `FilterSearch.SearchIsComplete` | kubernetes/pkg/scheduler/schedule_one.go:604-655 | Without filter errors and outside cancellation, exactly the wanted number was found, or every node passed or failed, and not both |
| `SearchProgress.RunsAreShort` | kubernetes/pkg/scheduler/schedule_one.go:609-642 | A run has at most four steps for each node, apart from outside cancellations |
| `SearchProgress.NeverStuck` | kubernetes/pkg/scheduler/schedule_one.go:609-642 | Until all workers are done one of them can take a step, so every run that goes on ends finished |
| `SearchProgress.CancelledIff` | kubernetes/pkg/scheduler/schedule_one.go:614-625 | Over every run the search is cancelled exactly when the caller stopped it or a worker cancelled it after an error or an overshoot; an error is sent exactly when a filter plugin erred |
| `SearchProgress.NothingTaken` | kubernetes/pkg/scheduler/schedule_one.go:620-642 | Once cancelled, a search stays so and takes up no further node |
| `SearchOutcome.CollectStatuses` | kubernetes/pkg/scheduler/schedule_one.go:644-650 | The loop over the results yields the status map, a later result overwriting an earlier one |
| `SearchOutcome.TakeUnfiltered` | kubernetes/pkg/scheduler/schedule_one.go:592-597 | Without filter plugins the first wanted nodes nodes[(start + i) % n] from the start index are taken; an empty node list with a positive bound divides by zero |
| `SearchOutcome.FindUnfiltered` | kubernetes/pkg/scheduler/schedule_one.go:582-597 | Without filter plugins, with the computed bound: that many different nodes from the start index on, and a panic only for an empty list when nothing scores or filters |
| `SearchOutcome.NodeAtInjective` | kubernetes/pkg/scheduler/schedule_one.go:612 | Within one search no node is looked at twice |
| `SearchOutcome.StatusMapMeaning` | kubernetes/pkg/scheduler/schedule_one.go:644-650 | The map holds exactly the names of the nodes with a result, each with its own reason |
| `SearchOutcome.StatusOfNode` | kubernetes/pkg/scheduler/schedule_one.go:612-650 | The reason recorded by piece i is kept under the name of nodes[(start + i) % n] |
| `SearchOutcome.FeasibleNames` | kubernetes/pkg/scheduler/schedule_one.go:619-643 | The feasible list by name: distinct names, at most the wanted number, each of a node that fits |
| `SearchOutcome.NamesArePartitioned` | kubernetes/pkg/scheduler/schedule_one.go:604-655 | Without errors and outside stop, the list is full or every node's name is in exactly one of the list and the status map |
| `SearchOutcome.ListAvoidsMap` | kubernetes/pkg/scheduler/schedule_one.go:604-655 | In every finished search a node in the feasible list passes the filters and has no status, also after an error or a stop |
| `SearchBound.BoundRange` | kubernetes/pkg/scheduler/schedule_one.go:660-686 | For a percentage in 0..100 the bound lies between min(n, 100) and n for every int32 n, also where the product wraps |
| `SearchBound.NodesToFindRange` | kubernetes/pkg/scheduler/schedule_one.go:582-586 | The search is for at least one node and at most all of them |
| `SearchBound.BoundIsIdeal` | kubernetes/pkg/scheduler/schedule_one.go:680-685 | For the percentage that the configuration asks for, the bound is the one without a machine word exactly when the product fits an int32 |
| `SearchBound.BoundIsIdealUpTo` | kubernetes/pkg/scheduler/schedule_one.go:680-685 | Up to 21474836 nodes nothing overflows; at 21474837 nodes and 100 percent the bound collapses to 100 |
| `SearchBound.SetPercentage` | kubernetes/pkg/scheduler/schedule_one.go:666-685 | A percentage p set in the profile, or else globally, makes the bound max(100, n*p/100) |
| `SearchBound.AdaptivePercentage` | kubernetes/pkg/scheduler/schedule_one.go:673-685 | A percentage of zero stands for max(5, 50 - n/125) |
| `SearchBound.AdaptiveBound` | kubernetes/pkg/scheduler/schedule_one.go:673-685 | In adaptive mode with at least 100 nodes the bound is at most max(812, n/20) |
| `Rotation.ProcessesEnough` | kubernetes/pkg/scheduler/schedule_one.go:500-504 | An error-free cycle processes at least the wanted number of nodes, or all of them |
| `Rotation.NoNodeStarves` | kubernetes/pkg/scheduler/schedule_one.go:500-504 | With pieces taken in order, in error-free cycles that together want at least n nodes some piece looks at each of the n nodes; n cycles always suffice |
| `Rotation.EveryNodeExamined` | kubernetes/pkg/scheduler/schedule_one.go:609-642 | If at most one node fewer is wanted than there are, a single error-free cycle examines every node, in every interleaving |
| `Rotation.OutOfOrderStarves` | kubernetes/pkg/scheduler/schedule_one.go:500-504 | If at least two nodes fewer are wanted than there are, then for every node, start index and length there is a chain of that many error-free cycles that never examines the node |
| `Rotation.CanStarveIff` | kubernetes/pkg/scheduler/schedule_one.go:500-504 | A node can starve, over all interleavings and verdicts, if and only if want + 2 <= n |
| `Rotation.ComputedBoundIsFair` | kubernetes/pkg/scheduler/schedule_one.go:500-504 | With the computed bound, n cycles examine every node in order, and in any order below a hundred nodes when something scores or filters |
| `ExtenderFilters.MarkUnresolvable` | kubernetes/pkg/scheduler/schedule_one.go:715-722 | In any map order: unresolvable nodes get that code, and the message after the reasons they had |
| `ExtenderFilters.MarkFailed` | kubernetes/pkg/scheduler/schedule_one.go:724-735 | In any map order: failed nodes not in the other map get a new status or one more reason under the code they had |
| `ExtenderFilters.FindNodesThatPassExtenders` | kubernetes/pkg/scheduler/schedule_one.go:688-740 | The loop gives one result, independent of map order: skipped, ignorable and failing extenders, early end on an empty list |
| `ExtenderFilters.FailsIff` | kubernetes/pkg/scheduler/schedule_one.go:698-740 | There is no list exactly when an interested extender that is reached with nodes errs and may not be ignored; else the list and the statuses are those behind the last extender |
| `ExtenderFilters.MayBeRemoved` | kubernetes/pkg/scheduler/schedule_one.go:701-713 | An extender that is not interested, or that errs and may be ignored, can be taken out without changing the list or the statuses |
| `ExtenderFilters.FinalStatus` | kubernetes/pkg/scheduler/schedule_one.go:715-735 | A node ends with a status if it had one or an extender failed it: its reasons are the old ones and then every message in order, its code the unresolvable one if any extender says so, and else its old one, or Unschedulable |
| `ExtenderFilters.FoldPartitions` | kubernetes/pkg/scheduler/schedule_one.go:688-740 | If every reply splits its input, the nodes not returned are exactly the new status entries |
| `ExtenderFilters.EveryNodeOnce` | kubernetes/pkg/scheduler/schedule_one.go:688-740 | Every incoming node ends in exactly one of the returned list and the statuses |
| `ExtenderFilters.NeverDowngraded` | kubernetes/pkg/scheduler/schedule_one.go:715-735 | A recorded status keeps its reasons, and its code changes to UnschedulableAndUnresolvable or not at all |
| `ExtenderFilters.NoStatusNeverFailed` | kubernetes/pkg/scheduler/schedule_one.go:715-735 | A node without a status at the end was put into a failure map by no extender that was asked |
| `ExtenderScores.AddAnswer` | kubernetes/pkg/scheduler/schedule_one.go:814-838 | One critical section adds score*weight*scale to every host it names, in int64 arithmetic, and appends the single scores in order |
| `ExtenderScores.ShareIs` | kubernetes/pkg/scheduler/schedule_one.go:790-820 | An interested extender that answers adds ten times its weight for each point it gives a host, any other one nothing and no single score |
| `ExtenderScores.EntriesAdd` | kubernetes/pkg/scheduler/schedule_one.go:807-837 | Each entry of an answer gives its host one single score under the extender's name, and entries add up |
| `ExtenderScores.CombineExtenders` | kubernetes/pkg/scheduler/schedule_one.go:797-842 | For every order of taking the lock the totals are the sums over the interested extenders that did not fail, and each host's list holds their single scores, each as often as it was given |
| `ExtenderScores.PrioritizeNodes` | kubernetes/pkg/scheduler/schedule_one.go:747-857 | Each node's total is its plugin total plus the extenders' shares, its list the plugin scores followed by all of the extenders' scores for it; score one without plugins and extenders; an error if the plugins fail |
| `ScoreHeap.SiftDown` | kubernetes/pkg/scheduler/schedule_one.go:914-922 | The in-place sift of container/heap with this order equals the function `Down` |
| `ScoreHeap.Init` | kubernetes/pkg/scheduler/schedule_one.go:870-871 | The in-place heap construction equals the function `Heapify` |
| `ScoreHeap.Pop` | kubernetes/pkg/scheduler/schedule_one.go:928-934 | A pop returns the root and leaves the array of the function `PopStep` |
| `ScoreHeap.DownRestores` | kubernetes/pkg/scheduler/schedule_one.go:914-922 | Sifting repairs a heap that is wrong at one position |
| `ScoreHeap.SiftKeepsTies` | kubernetes/pkg/scheduler/schedule_one.go:914-922 | Equal totals are never exchanged: an entry that no child beats stays, and of two equal children the left one rises |
| `ScoreHeap.EqualsInOrder` | kubernetes/pkg/scheduler/schedule_one.go:870-898 | Three nodes with one total are popped as the first, the last and the second |
| `ScoreHeap.PopOrderSorts` | kubernetes/pkg/scheduler/schedule_one.go:870-898 | Popping everything yields a permutation of the input in non-increasing order |
| `Reservoir.AllDrawsMeaning` | kubernetes/pkg/scheduler/schedule_one.go:885-891 | The counted draw sequences are exactly the sequences of results of Intn(2), Intn(3), ..., Intn(m) |
| `Reservoir.PickMeaning` | kubernetes/pkg/scheduler/schedule_one.go:885-891 | The tied node of the last draw that was 0 is picked, and the first one if none was |
| `Reservoir.PickIsUniform` | kubernetes/pkg/scheduler/schedule_one.go:885-891 | Of the m! draw sequences for m tied nodes, exactly (m-1)! pick each of them |
| `Reservoir.AllDrawsSize` | kubernetes/pkg/scheduler/schedule_one.go:885-891 | There are exactly m! draw sequences |
| `Reservoir.EarlyPickIsUniform` | kubernetes/pkg/scheduler/schedule_one.go:885-891 | Draws beyond the tied nodes change nothing: each of m tied nodes is picked by one m-th of the n! sequences |
| `SelectHost.SelectHost` | kubernetes/pkg/scheduler/schedule_one.go:865-912 | The method on an array, for every count and all draws: an error on an empty list, a panic on one entry or a count below one, else the chosen list and its head's name |
| `SelectHost.PopTop` | kubernetes/pkg/scheduler/schedule_one.go:872-898 | The loop stops, and collects what the function `CollectAll` says |
| `SelectHost.CollectMeaning` | kubernetes/pkg/scheduler/schedule_one.go:878-898 | When the loop stops it has seen all tied nodes, has count entries or all, and knows the node the draws pick |
| `SelectHost.ChosenMeaning` | kubernetes/pkg/scheduler/schedule_one.go:861-912 | min(count, n) input entries in non-increasing order, none left out above any returned one, the head at the global maximum |
| `SelectHost.ChosenAt` | kubernetes/pkg/scheduler/schedule_one.go:899-911 | The picked node and the first one change places; every other entry stays where it was popped |
| `SelectHost.HostIsUniform` | kubernetes/pkg/scheduler/schedule_one.go:885-905 | For a list of distinct entries, each of the best ones is the host on the same number of the n! draw sequences, whatever the count |
| `Scheduling.ScheduleOne` | kubernetes/pkg/scheduler/schedule_one.go:393-440 | The whole cycle: the suggested host passed the filters, has no status, was failed by no extender that was asked, and has the largest merged total of the nodes that remain; and exactly when there is no node, no node left, or an error of a filter plugin, of an extender that may not be ignored, or of the scoring |
| `Scheduling.RemainingIsSuitable` | kubernetes/pkg/scheduler/schedule_one.go:498-517 | Every node left by the search and the extenders passed the filters, has no status, and is in no failure map of an extender that was asked |
| `Scheduling.RefusedKeepsStatus` | kubernetes/pkg/scheduler/schedule_one.go:644-650 | A node refused by the filter plugins keeps its status in the diagnosis, with the extenders' messages behind its reasons |
| `Scheduling.EvaluatedIsProcessed` | kubernetes/pkg/scheduler/schedule_one.go:432-440 | Extenders that split their lists leave the number of evaluated nodes at the number the search processed |
| `SelectHost.SchedulePod` | kubernetes/pkg/scheduler/schedule_one.go:401-440 | schedulePod never calls selectHost with fewer than two entries, so it never crashes there |
| `Tables.Database.InsertIntoProvisional` | kubernetes/pkg/fluxnetes/queries/queries.go:36 | Inserts the pod row unless it exists |
| `Tables.Database.IncrementGroupProvisional` | kubernetes/pkg/fluxnetes/queries/queries.go:44 | Adds one to the group's count if it has a row |
| `Tables.Database.InsertIntoGroupProvisional` | kubernetes/pkg/fluxnetes/queries/queries.go:43 | Inserts a group row with count one unless it exists |
| `Tables.Database.InsertIntoPending` | kubernetes/pkg/fluxnetes/queries/queries.go:29 | Inserts the pending row unless it exists |
| `Tables.Database.DeleteProvisionalGroups` | kubernetes/pkg/fluxnetes/queries/queries.go:32 | Deletes the rows of the given groups |
| `Tables.Database.SelectGroupsAtSize` | kubernetes/pkg/fluxnetes/queries/queries.go:23 | Lists the groups whose count reached their size, once each, from the latest created_at to the earliest |
| `Tables.Database.SelectPods` | kubernetes/pkg/fluxnetes/queries/queries.go:26 | Lists the names of a group's pods, once each |
| `Provisional.ProvisionalQueue.Enqueue` | kubernetes/pkg/fluxnetes/strategy/provisional/provisional.go:54-111 | Status and tables for a failure at any statement: exactly the statements before it were applied |
| `Provisional.ProvisionalQueue.MakeJob` | kubernetes/pkg/fluxnetes/strategy/provisional/provisional.go:142-169 | A job carries its group's key, size and duration, names all its pod rows, and has the podspec of the last one |
| `Provisional.ProvisionalQueue.BuildLookup` | kubernetes/pkg/fluxnetes/strategy/provisional/provisional.go:135-171 | Under the key of each listed row the lookup map holds the job of the last row with that key |
| `Provisional.ProvisionalQueue.GetReadyGroups` | kubernetes/pkg/fluxnetes/strategy/provisional/provisional.go:115-176 | One job for each distinct key among the ready groups, made of the oldest ready group with that key |
| `Provisional.SelectionHappens` | kubernetes/pkg/fluxnetes/queries/queries.go:23 | Any choice among groups tied for the oldest can happen: some order of the query's rows lists each chosen group last with its key |
| `Provisional.ProvisionalQueue.InsertPendingAll` | kubernetes/pkg/fluxnetes/strategy/provisional/provisional.go:210-229 | Inserts the groups one by one; a failure leaves exactly the inserts before it |
| `Provisional.ProvisionalQueue.DeleteAll` | kubernetes/pkg/fluxnetes/strategy/provisional/provisional.go:179-206 | Deletes exactly the group rows of the jobs |
| `Provisional.ProvisionalQueue.ReadyJobs` | kubernetes/pkg/fluxnetes/strategy/provisional/provisional.go:232-254 | For a failure at any table statement: the jobs returned, the error, and the tables |
| `QueueSafety.CrashSafe` | kubernetes/pkg/fluxnetes/strategy/provisional/provisional.go:243-251 | At every point inside ReadyJobs each group that was ready is provisional, with its old row, or pending |
| `QueueSafety.RerunSelects` | kubernetes/pkg/fluxnetes/strategy/provisional/provisional.go:232-254 | After a crash before the delete a second call may select exactly what a call on the old tables may |
| `QueueSafety.CrashInvisibleIff` | kubernetes/pkg/fluxnetes/strategy/provisional/provisional.go:232-254 | A crash before the delete and a second call always give tables that some single uninterrupted call may give, exactly when every ready group that ties for the oldest with its lookup key is pending already |
| `QueueSafety.RerunsAgreeIff` | kubernetes/pkg/fluxnetes/strategy/provisional/provisional.go:232-254 | They always give the very tables the interrupted call was heading for exactly when, for each lookup key, the earliest created_at among its ready groups is attained once |
| `QueueSafety.NoClashIsUnique` | kubernetes/pkg/fluxnetes/strategy/provisional/provisional.go:170 | Both hold whenever no two ready groups share a lookup key |
| `QueueSafety.TieShowsInRun` | kubernetes/pkg/fluxnetes/strategy/provisional/provisional.go:86-110 | After two calls of Enqueue for groups whose keys clash, a crash can leave a trace exactly when their timestamps are equal |
| `QueueSafety.TieExample` | kubernetes/pkg/fluxnetes/strategy/provisional/provisional.go:86-110 | Group "x-a" in namespace "b" and group "x" in namespace "a-b" with one timestamp: after a crash between the inserts and the delete a second call can leave the first group provisional and pending, which no single call does |
| `QueueSafety.PendingTie` | kubernetes/pkg/fluxnetes/strategy/provisional/provisional.go:195-229 | Two such groups that were moved and then enqueued again: the tables depend on the choice, but no crash leaves a trace |
| `QueueSafety.CallTakesSelection` | kubernetes/pkg/fluxnetes/strategy/provisional/provisional.go:232-254 | One call moves exactly its selected groups and leaves every other group row and all pod rows alone |
| `QueueSafety.EmittedOnce` | kubernetes/pkg/fluxnetes/strategy/provisional/provisional.go:232-254 | Over any number of calls the ready groups are the emitted ones, each once, and the ones still ready |
| `QueueSafety.Drains` | kubernetes/pkg/fluxnetes/strategy/provisional/provisional.go:232-254 | m calls leave no ready group when at most m ready groups share a key |
| `QueueSafety.ClashIff` | kubernetes/pkg/fluxnetes/strategy/provisional/provisional.go:170 | Two groups share a lookup key exactly when they are equal or the dash between name and namespace can be moved |
| `QueueSafety.DashFreeNamespaces` | kubernetes/pkg/fluxnetes/strategy/provisional/provisional.go:170 | Namespaces without a dash never clash; a concrete pair of groups does |
| `Quorum.CountIs` | kubernetes/pkg/fluxnetes/strategy/provisional/provisional.go:86-110 | Over every run of both calls, failing anywhere: a group has a row exactly when it counts something, its count is the number of counted calls, and counted pods have rows |
| `Quorum.RowIsCreators` | kubernetes/pkg/fluxnetes/queries/queries.go:43-44 | Over every run a group row has the size, duration, creation time and podspec of the successful call that created it |
| `Quorum.JobIsCreators` | kubernetes/pkg/fluxnetes/strategy/provisional/provisional.go:142-169 | A job carries that size and duration, its group's key, and the podspec of one of the group's pods |
| `Quorum.CurrentIsSuccesses` | kubernetes/pkg/fluxnetes/strategy/provisional/provisional.go:86-110 | current_size is the number of successful Enqueue calls since the row was created exactly when none failed right after its increment |
| `Quorum.HalfFailedCounts` | kubernetes/pkg/fluxnetes/strategy/provisional/provisional.go:86-110 | A run in which a call fails right after its increment and completes a group of two |
| `Quorum.QuorumReached` | kubernetes/pkg/fluxnetes/strategy/provisional/provisional.go:86-169 | If no pod was counted twice since the row was created, the count never exceeds the pod rows, so every job of a ready group names at least GroupSize distinct pods |
| `Quorum.EnqueuedOnce` | kubernetes/pkg/fluxnetes/strategy/provisional/provisional.go:86-110 | That is so whenever no pod is enqueued twice in the run |
| `Quorum.PodNamesAre` | kubernetes/pkg/fluxnetes/queries/queries.go:36 | A group's pod rows are those of all pods whose first statement was ever applied, also of failed calls and earlier rounds |
| `Quorum.CountCoveredIff` | kubernetes/pkg/fluxnetes/strategy/provisional/provisional.go:86-110 | Over every run the count is covered by pod rows exactly when no more calls were counted than pods ever tried; in a first round without failures, exactly when no pod was enqueued twice |
| `Quorum.EnqueuedTwice` | kubernetes/pkg/fluxnetes/strategy/provisional/provisional.go:86-110 | The same pod enqueued twice makes a group of size two ready with one pod |
| `Quorum.NamedEverAfter` | kubernetes/pkg/fluxnetes/strategy/provisional/provisional.go:195-196 | Pod rows outlive the group row: a pod counted once is named by every later job of its group |
| `Quorum.NeverLost` | kubernetes/pkg/fluxnetes/strategy/provisional/provisional.go:243-251 | Over every run a group that once had a row is in the group table or pending ever after |
| `Jobspec.GetPodJobspecLabels` | kubernetes/pkg/fluxnetes/resources/resources.go:14-22 | The values of the labels whose key contains "jobspec", one for each such label, in any order |
| `Jobspec.ContainsIff` | kubernetes/pkg/fluxnetes/resources/resources.go:17 | A key contains "jobspec" exactly when it occurs at some position |
| `Jobspec.PreparePodJobSpec` | kubernetes/pkg/fluxnetes/resources/resources.go:29-81 | The fields are the jobspec labels and the summed requests of the containers, in int32 and int64 arithmetic, with one cpu for none |
| `Jobspec.TotalAdds` | kubernetes/pkg/fluxnetes/resources/resources.go:52-66 | The summed requests: one container counts as itself, and lists of containers add up |
| `Jobspec.CpuFieldIs` | kubernetes/pkg/fluxnetes/resources/resources.go:58-73 | The cpu field is never zero, and is max(1, total) exactly when the total fits an int32 |
| `Jobspec.CreateSocketResources` | src/fluxnetes/pkg/jobspec/jobspec.go:75-93 | Cores, and memory in MB and gpus when requested |
| `Jobspec.SocketKinds` | src/fluxnetes/pkg/jobspec/jobspec.go:75-93 | Memory and gpus are asked for exactly if some are needed, behind the cores |
| `Jobspec.CreateResources` | src/fluxnetes/pkg/jobspec/jobspec.go:96-129 | The slots, wrapped into a subnet and a node when a label is "zone" |
| `Jobspec.JobDemand` | src/fluxnetes/pkg/jobspec/jobspec.go:75-129 | In both shapes the nested request is for count slots with count times a pod's share of each kind; with a zone label all of it comes from one node of one subnet |
| `Jobspec.PodDemandIs` | src/fluxnetes/pkg/jobspec/jobspec.go:75-93 | A pod's share is its cores, its gpus, and its memory rounded down to whole MB |
| `Jobspec.JobIsLabelled` | src/fluxnetes/pkg/jobspec/jobspec.go:96-129 | Exactly the slots carry the label "default" |
| `Jobspec.JobNesting` | src/fluxnetes/pkg/jobspec/jobspec.go:96-129 | Cores stand in a slot, and with a zone label the slot stands in a node of a subnet |
| `Allocation.ParseAllocResult` | src/fluxnetes/pkg/utils/utils.go:266-310 | The loop over the vertices equals the function `Parsed` |
| `Allocation.CoresConserved` | src/fluxnetes/pkg/utils/utils.go:284-301 | Parsed core counts plus the cores after the last node equal all core vertices |
| `Allocation.CoresFirstParses` | src/fluxnetes/pkg/utils/utils.go:284-301 | A list that gives each node's cores just before it parses back to the same nodes with their own counts |
| `Allocation.NodeFirstCondition` | src/fluxnetes/pkg/utils/utils.go:284-301 | A list that gives each node before its cores parses back to the nodes' own counts exactly when there are no cores |
| `ReadBack.ReadBackIff` | src/fluxnetes/pkg/utils/utils.go:150-301 | The vertex list of the built graph parses to every included node with the cores of the one before it, which is its own count for all nodes exactly when no included node has a core |
| `ReadBack.OneNodeReadWrongly` | src/fluxnetes/pkg/utils/utils.go:150-301 | A cluster of one node with one free cpu is read back with no core |
| `Allocation.MatchNodes` | src/fluxnetes/pkg/fluxion/fluxion.go:119-128 | The node list has one entry per parsed node, with its basename and its cores divided by the cpu field |
| `Allocation.TasksFit` | src/fluxnetes/pkg/fluxion/fluxion.go:124-127 | Tasks need no more than the node's cores, also where the conversion wraps, and otherwise as many as fit |
| `Allocation.ExpandNodes` | kubernetes/pkg/fluxnetes/strategy/workers/job.go:152-158 | Each node's name once for each of its tasks, in order |
| `Allocation.ExpandedAdds` | kubernetes/pkg/fluxnetes/strategy/workers/job.go:152-158 | One node gives its name once for each of its tasks, and the nodes follow each other in order |
| `Allocation.NeverOversubscribed` | kubernetes/pkg/fluxnetes/strategy/workers/job.go:149-159 | A node's occurrences times the cpu field are at most the cores allocated on it |
| `Text.RoundTripCondition` | kubernetes/pkg/fluxnetes/fluxnetes.go:46-52 | Splitting a joined list gives it back exactly when it is not empty and no part contains the separator |
| `Binding.BindAll` | kubernetes/pkg/scheduler/scheduler.go:523-608 | Binds the i-th node to the i-th pod; nothing on cancellation; a panic exactly when there are more nodes than pod names |
| `Binding.WaitForJob` | kubernetes/pkg/scheduler/scheduler.go:495-613 | The event loop: it goes on exactly as long as no event is nil, a cancelled job or an overrun, and until then every pod of every finished job is bound to its node, and nothing else |
| `Binding.JobIsBound` | kubernetes/pkg/scheduler/scheduler.go:561-605 | While no event ends the loop, the j-th pod of the i-th job is bound to its j-th node, behind the binds of all earlier jobs |
| `Binding.EndsAtFirst` | kubernetes/pkg/scheduler/scheduler.go:495-613 | The loop ends at its first nil event, cancelled job or overrun, with the binds made before and, for an overrun, one for each of that job's pods |
| `Binding.CancelEndsBinding` | kubernetes/pkg/scheduler/scheduler.go:527-546 | After a cancelled job no event leads to a bind any more |
| `Binding.NodeString` | src/fluxnetes/pkg/fluxion/fluxion.go:119-128 | The server's and the worker's loops in sequence: the node string of a job from the allocated vertices |
| `Binding.NoTasksStillBinds` | kubernetes/pkg/scheduler/scheduler.go:552 | Without tasks the first pod is still bound, to a node named "" |
| `Binding.GrantedNodes` | kubernetes/pkg/fluxnetes/strategy/workers/job.go:149-159 | For a grant of size slots the node list has exactly size entries and survives joining and splitting |
| `Binding.EmittedPods` | kubernetes/pkg/fluxnetes/strategy/provisional/provisional.go:154-169 | The pod names of an emitted job survive joining and splitting: exactly the group's pods |
| `Binding.InRangeIff` | kubernetes/pkg/scheduler/scheduler.go:555-565 | podNames[i] stays in range exactly when the group has as many pod rows as its size |
| `Binding.GangBinding` | kubernetes/pkg/scheduler/scheduler.go:523-565 | From queue to nodes, if no pod was counted twice in the round and the cpu field is positive, as it is for every total that fits an int32: exactly GroupSize binds of distinct pods of the group, no index out of range, no node beyond its cores |
| `Binding.TwiceEnqueuedPanics` | kubernetes/pkg/scheduler/scheduler.go:562-565 | A pod enqueued twice in a group of two leads to an index out of range for every grant |
| `Capacity.ComputeTotalRequests` | src/fluxnetes/pkg/utils/utils.go:241-255 | In any map order the total of each resource is the sum over the pods, with an entry exactly for the requested ones |
| `Capacity.TotalAdds` | src/fluxnetes/pkg/utils/utils.go:241-255 | One pod counts with its own request, and lists of pods add up |
| `Capacity.Available` | src/fluxnetes/pkg/utils/utils.go:165-176 | Free cpu truncated to whole cores and free memory rounded down to whole GiB |
| `Capacity.CapacitySoundAndTight` | src/fluxnetes/pkg/utils/utils.go:165-228 | With what is allocatable less what the pods request: 1000c <= max(0, free milli-cpu) < 1000(c+1) and m GiB <= max(0, free bytes) < (m+1) GiB; the gpus are the allocatable ones |
| `Advertised.KidsOfNode` | src/fluxnetes/pkg/utils/utils.go:190-228 | Below the vertex of each included node the built graph has exactly its gpus, cores and memory units |
| `Advertised.GraphShowsCapacity` | src/fluxnetes/pkg/utils/utils.go:165-228 | So the vertices below a node bracket its free cpu and memory from both sides |
| `Jgf.FluxJGF.constructor` | src/fluxnetes/pkg/jgf/jgf.go:55-67 | A new graph is empty and counts one resource named "cluster" |
| `Jgf.FluxJGF.NextIndex` | src/fluxnetes/pkg/jgf/types.go:117-121 | Returns the element count and adds one |
| `Jgf.FluxJGF.NextResourceIndex` | src/fluxnetes/pkg/jgf/types.go:124-131 | Returns the count kept under a name, zero for a new one, and adds one |
| `Jgf.FluxJGF.GetCounter` | src/fluxnetes/pkg/jgf/types.go:134-147 | Numbers a new resource by both counters; indices are counted by resource name |
| `Jgf.FluxJGF.MakeEdge` | src/fluxnetes/pkg/jgf/jgf.go:98-107 | Appends one edge |
| `Jgf.FluxJGF.MakeBidirectionalEdge` | src/fluxnetes/pkg/jgf/jgf.go:92-95 | Appends a contains-edge and its mirrored in-edge |
| `Jgf.FluxJGF.MakeNewNode` | src/fluxnetes/pkg/jgf/jgf.go:124-162 | Appends the vertex numbered by the vertices before it and keeps counter, list and node map in agreement |
| `Jgf.FluxJGF.MakeSubnet` | src/fluxnetes/pkg/jgf/jgf.go:111-118 | Appends a subnet just below the root |
| `Jgf.FluxJGF.MakeNode` | src/fluxnetes/pkg/jgf/jgf.go:165-175 | Appends a node below a subpath |
| `Jgf.FluxJGF.MakeCore` | src/fluxnetes/pkg/jgf/jgf.go:178-188 | Appends a core below a subpath |
| `Jgf.FluxJGF.MakeMemory` | src/fluxnetes/pkg/jgf/jgf.go:192-207 | Appends memory of a given size in MB below a subpath |
| `Jgf.FluxJGF.MakeGPU` | src/fluxnetes/pkg/jgf/jgf.go:210-220 | Appends a gpu of a given size below a subpath |
| `Jgf.FluxJGF.InitCluster` | src/fluxnetes/pkg/jgf/jgf.go:223-232 | The root vertex and root name, or an error for a graph that has vertices |
| `Jgf.OneMore` | src/fluxnetes/pkg/jgf/jgf.go:158-161 | Appending the vertex with the next id keeps the ids equal to the positions and the node map equal to the list |
| `Jgf.NumberedAt` | src/fluxnetes/pkg/jgf/types.go:106-121 | The k-th vertex has id k |
| `Jgf.RootNameIff` | src/fluxnetes/pkg/jgf/jgf.go:223-231 | The root vertex carries the root name exactly for a cluster not called "cluster" |
| `Paths.CleanIdentityIff` | src/fluxnetes/pkg/jgf/jgf.go:76-84 | Cleaning a rooted path changes nothing exactly when no element is empty, "." or ".." |
| `Paths.DotsCancel` | src/fluxnetes/pkg/jgf/jgf.go:76-84 | Empty elements and "." may be left out, ".." takes the element before it along and does nothing at the root |
| `Paths.ChildPath` | src/fluxnetes/pkg/jgf/jgf.go:76-84 | A child's path is its parent's path, a slash and its name |
| `Paths.PathsDiffer` | src/fluxnetes/pkg/jgf/jgf.go:76-84 | Two paths are equal exactly when their name lists are |
| `Text.IndexedNameInjective` | src/fluxnetes/pkg/jgf/types.go:102-104 | A name with its index decodes uniquely when names do not end in a digit |
| `GraphBuilder.AddMachineTo` | src/fluxnetes/pkg/utils/utils.go:150-228 | One included node: its subnet, itself, its gpus, cores and memory, each with both edges |
| `GraphBuilder.CreateInClusterJGF` | src/fluxnetes/pkg/utils/utils.go:98-230 | The whole graph as a function of the node list, with the skipped nodes, and the total of free cpus |
| `GraphContents.OneMoreNode` | src/fluxnetes/pkg/utils/utils.go:116-228 | One more cluster node changes nothing exactly if it has the control-plane label or the skip label or is unschedulable; any other node adds its subnet, itself, its gpus, cores and 1024 MB memory units, field by field and with both edges, and its free cpus |
| `GraphContents.NoNodes` | src/fluxnetes/pkg/utils/utils.go:98-108 | Without nodes there is only the root vertex and no cpu |
| `GraphTree.BuiltIsTree` | src/fluxnetes/pkg/utils/utils.go:98-229 | The built graph is a rooted tree: ids are positions, every later vertex hangs below an earlier one in edges and path, twice as many edges as non-root vertices, and every vertex is at its place |
| `GraphTree.OneParent` | src/fluxnetes/pkg/jgf/jgf.go:92-107 | Every non-root vertex has exactly one contains-parent, of smaller id, and exactly one in-edge, to the same vertex; the root has none |
| `GraphTree.BelowRoot` | src/fluxnetes/pkg/jgf/jgf.go:76-88 | Every path starts with the root's path |
| `GraphTree.VertexTotal` | src/fluxnetes/pkg/utils/utils.go:98-228 | One vertex and, for each included node, two plus its gpus, cores and memory units |
| `GraphPaths.PathsDistinctIff` | src/fluxnetes/pkg/utils/utils.go:150-228 | Given names without slashes, all paths are pairwise distinct exactly when the subnet names are |
| `GraphPaths.PlainZones` | src/fluxnetes/pkg/utils/utils.go:150-156 | Zone labels that do not end in a digit make the subnet names distinct |
| `GraphPaths.ZonesClash` | src/fluxnetes/pkg/utils/utils.go:150-156 | Zone "a1" on the third included node and zone "a" on the thirteenth give equal paths |
| `GraphPaths.ThirteenNodesClash` | src/fluxnetes/pkg/utils/utils.go:150-156 | A list of thirteen nodes, the third in zone "a1" and the others in zone "a", builds a graph with two equal paths |

## Left out

- Postgres, river, gRPC, the Kubernetes API, informers, JSON, YAML, logging and metrics: foreign calls; their results are parameters, and a failing listing call of the builder (which ends it without writing a graph) is not modelled.
- Fluxion itself: what it grants is the explicit precondition `Grants` of the binding lemmas, with each node's cores listed just before the node.
- FilterSearch.EveryRunKeepsInv: the workers are a transition relation on values instead of threads on shared memory, one atomic step per visible effect; Go's memory model and the chunking of `Parallelizer.Until` are not modelled, so pieces may be taken in any order.
- Rotation.NoNodeStarves: stated for a fixed node list without nominated node and prefilter subset and for pieces taken in order; `Rotation.CanStarveIff` says exactly when that order is not needed.
- Scheduling.ScheduleOne: stated for a search with filter plugins, without nominated node and prefilter subset; an extender's filter and its scores are separate parameters, and the plugins' answer is any function of the node list.
- ExtenderScores.PrioritizeNodes: the order of the extenders' single scores is left open, because it depends on which of them takes the lock first.
- ExtenderFilters.FindNodesThatPassExtenders: statuses are values, so that two entries sharing one status pointer are not modelled; a status' separate error text is not either.
- Provisional.ProvisionalQueue.Enqueue: the rejection of a group that is already pending is not modelled as a branch, because the tag of a select never contains "INSERT 1" and the guard never fires.
- Provisional.ProvisionalQueue.InsertPendingAll: the batch may stop after any insert; Postgres runs it as one transaction, which is the special case of stopping before the first.
- Tables.Database.SelectGroupsAtSize: rows with equal creation times come in any order; timestamps are numbers; escaping of names in query texts is not modelled.
- Quorum.CountIs: runs are sequences of whole calls of Enqueue and ReadyJobs, because the scheduler runs them serially; Cleanup never empties these tables in the modelled code and is left out.
- Allocation.MatchNodes: a cpu field of zero, which the source would divide by, is excluded; `Jobspec.CpuFieldIs` shows it does not arise.
- Jobspec.PreparePodJobSpec: quantities enter as the values read from them.
- Capacity.Available: quantities are exact non-negative numbers; saturation at the int64 limits is not modelled.
- Jgf.FluxJGF.NextIndex: counters are unbounded; int64 overflow of vertex numbers is not modelled.
- GraphTree.BuiltIsTree: zones and node names are free of slashes, as Kubernetes requires of both; the rank and exclusive fields are constants and the unused label and property fields are left out.
- Binding.BindAll: the assume, reserve, permit and bind plugin calls for each plan are foreign.
- Reservations, Cleanup, the update and delete pod events, the loss of a job between ReadyJobs and its insertion into river, queue ordering, option setters: not modelled, as they would add easy members or need foreign code.
