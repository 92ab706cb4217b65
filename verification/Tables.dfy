/** The three queue tables as values, and the SQL statements of queries.go as functions on them. */
module Tables {
  import opened Collections

  datatype GroupKey = GroupKey(name: string, namespace: string)
  datatype GroupRow = GroupRow(size: int, duration: int, podspec: string, current: int, created: int)
  datatype PodKey = PodKey(group: GroupKey, pod: string)

  // pods_provisional, groups_provisional and pending_queue; the maps are their unique indexes.
  datatype Tables = Tables(pods: map<PodKey, string>, groups: map<GroupKey, GroupRow>, pending: map<GroupKey, int>)

  datatype Pod = Pod(name: string, namespace: string, spec: string)
  datatype PodGroup = PodGroup(name: string, size: int, duration: int, timestamp: int)

  // A group is identified by its name and the namespace of the pod.
  function KeyOf(pod: Pod, group: PodGroup): GroupKey {
    GroupKey(group.name, pod.namespace)
  }

  function InsertPod(t: Tables, pod: Pod, group: PodGroup): Tables {
    var key := PodKey(KeyOf(pod, group), pod.name);
    if key in t.pods then t else t.(pods := t.pods[key := pod.spec])
  }

  function IncrementGroup(t: Tables, key: GroupKey): Tables {
    if key in t.groups then t.(groups := t.groups[key := t.groups[key].(current := t.groups[key].current + 1)]) else t
  }

  function InsertGroup(t: Tables, pod: Pod, group: PodGroup): Tables {
    var key := KeyOf(pod, group);
    if key in t.groups then t
    else t.(groups := t.groups[key := GroupRow(group.size, group.duration, pod.spec, 1, group.timestamp)])
  }

  function InsertPending(t: Tables, key: GroupKey, size: int): Tables {
    if key in t.pending then t else t.(pending := t.pending[key := size])
  }

  function DeleteGroups(t: Tables, keys: set<GroupKey>): Tables {
    t.(groups := t.groups - keys)
  }

  // The groups that SelectGroupsAtSizeQuery finds.
  function Ready(t: Tables): set<GroupKey> {
    set g | g in t.groups && t.groups[g].current >= t.groups[g].size
  }

  function Created(t: Tables, g: GroupKey): int {
    if g in t.groups then t.groups[g].created else 0
  }

  // The rows of SelectGroupsAtSizeQuery, from the latest created_at to the earliest, equal ones in any order.
  ghost predicate Listing(t: Tables, rows: seq<GroupKey>) {
    && Lists(rows, Ready(t))
    && forall i, j :: 0 <= i < j < |rows| ==> Created(t, rows[j]) <= Created(t, rows[i])
  }

  // SelectPodsQuery has no order of its own.
  function PodNames(t: Tables, g: GroupKey): set<string> {
    set k | k in t.pods && k.group == g :: k.pod
  }

  // The database: one method per statement, each of them atomic.
  class Database {
    var pods: map<PodKey, string>
    var groups: map<GroupKey, GroupRow>
    var pending: map<GroupKey, int>

    function View(): Tables
      reads this
    {
      Tables(pods, groups, pending)
    }

    constructor ()
      ensures View() == Tables(map[], map[], map[])
    {
      pods, groups, pending := map[], map[], map[];
    }

    // InsertIntoProvisionalQuery
    method InsertIntoProvisional(pod: Pod, group: PodGroup)
      modifies this`pods
      ensures View() == InsertPod(old(View()), pod, group)
    {
      var key := PodKey(KeyOf(pod, group), pod.name);
      if key !in pods {
        pods := pods[key := pod.spec];
      }
    }

    // IncrementGroupProvisional
    method IncrementGroupProvisional(key: GroupKey)
      modifies this`groups
      ensures View() == IncrementGroup(old(View()), key)
    {
      if key in groups {
        groups := groups[key := groups[key].(current := groups[key].current + 1)];
      }
    }

    // InsertIntoGroupProvisional
    method InsertIntoGroupProvisional(pod: Pod, group: PodGroup)
      modifies this`groups
      ensures View() == InsertGroup(old(View()), pod, group)
    {
      var key := KeyOf(pod, group);
      if key !in groups {
        groups := groups[key := GroupRow(group.size, group.duration, pod.spec, 1, group.timestamp)];
      }
    }

    // InsertIntoPending
    method InsertIntoPending(key: GroupKey, size: int)
      modifies this`pending
      ensures View() == InsertPending(old(View()), key, size)
    {
      if key !in pending {
        pending := pending[key := size];
      }
    }

    // DeleteProvisionalGroupsQuery
    method DeleteProvisionalGroups(keys: set<GroupKey>)
      modifies this`groups
      ensures View() == DeleteGroups(old(View()), keys)
    {
      groups := groups - keys;
    }

    // SelectGroupsAtSizeQuery
    method SelectGroupsAtSize() returns (rows: seq<GroupKey>)
      ensures Listing(View(), rows)
    {
      rows := [];
      var t, todo := View(), Ready(View());
      while todo != {}
        invariant todo <= Ready(t) && Lists(rows, Ready(t) - todo)
        invariant forall i, j :: 0 <= i < j < |rows| ==> Created(t, rows[j]) <= Created(t, rows[i])
        invariant forall i, g :: 0 <= i < |rows| && g in todo ==> Created(t, g) <= Created(t, rows[i])
      {
        ghost var _ := LargestExists(todo, g => Created(t, g));
        var g :| g in todo && forall h :: h in todo ==> Created(t, h) <= Created(t, g);
        rows := rows + [g];
        todo := todo - {g};
      }
      assert Ready(t) - todo == Ready(t);
    }

    // SelectPodsQuery: the row order is arbitrary.
    method SelectPods(g: GroupKey) returns (names: seq<string>)
      ensures Lists(names, PodNames(View(), g))
    {
      names := ListOf(PodNames(View(), g));
    }
  }
}
