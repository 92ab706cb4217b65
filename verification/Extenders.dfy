/** Scheduler extenders: findNodesThatPassExtenders folds their filters over the feasible nodes. */
module ExtenderFilters {
  import opened Collections
  import opened Options

  datatype Code = Unschedulable | UnschedulableAndUnresolvable | OtherCode(code: int)
  datatype Status = Status(code: Code, reasons: seq<string>)
  type Statuses = map<string, Status>

  // What extender.Filter answers: the nodes that stay, and a message for each failed one.
  datatype Reply =
    | Filtered(feasible: seq<string>, failed: map<string, string>, unresolvable: map<string, string>)
    | FilterError

  datatype Extender = Extender(interested: bool, ignorable: bool, filter: seq<string> -> Reply)

  // ----- what one reply does to the statuses -----

  ghost function Reasons(statuses: Statuses, name: string): seq<string> {
    if name in statuses then statuses[name].reasons else []
  }

  ghost function Unresolved(statuses: Statuses, unresolvable: map<string, string>): Statuses {
    map name | name in statuses.Keys + unresolvable.Keys ::
      if name in unresolvable then Status(UnschedulableAndUnresolvable, Reasons(statuses, name) + [unresolvable[name]])
      else statuses[name]
  }

  ghost function Rejected(statuses: Statuses, failed: map<string, string>): Statuses {
    map name | name in statuses.Keys + failed.Keys ::
      if name !in failed then statuses[name]
      else if name in statuses then statuses[name].(reasons := statuses[name].reasons + [failed[name]])
      else Status(Unschedulable, [failed[name]])
  }

  ghost function Without(failed: map<string, string>, keys: set<string>): map<string, string> {
    map name | name in failed.Keys && name !in keys :: failed[name]
  }

  // failedAndUnresolvableMap takes precedence over failedMap.
  ghost function AfterReply(statuses: Statuses, r: Reply): Statuses
    requires r.Filtered?
  {
    Rejected(Unresolved(statuses, r.unresolvable), Without(r.failed, r.unresolvable.Keys))
  }

  // The two loops visit their map in an arbitrary order.
  method MarkUnresolvable(statuses: Statuses, unresolvable: map<string, string>) returns (out: Statuses)
    ensures out == Unresolved(statuses, unresolvable)
  {
    out := statuses;
    var todo := unresolvable.Keys;
    while todo != {}
      invariant todo <= unresolvable.Keys
      invariant out == Unresolved(statuses, Without(unresolvable, todo))
    {
      var name :| name in todo;
      var reasons := if name in out then out[name].reasons else [];
      reasons := reasons + [unresolvable[name]];
      out := out[name := Status(UnschedulableAndUnresolvable, reasons)];
      todo := todo - {name};
    }
    assert Without(unresolvable, {}) == unresolvable;
  }

  method MarkFailed(statuses: Statuses, failed: map<string, string>, unresolvable: map<string, string>)
    returns (out: Statuses)
    ensures out == Rejected(statuses, Without(failed, unresolvable.Keys))
  {
    out := statuses;
    var todo := failed.Keys;
    while todo != {}
      invariant todo <= failed.Keys
      invariant out == Rejected(statuses, Without(failed, unresolvable.Keys + todo))
    {
      var name :| name in todo;
      assert todo == todo - {name} + {name};
      todo := todo - {name};
      Visited(statuses, failed, unresolvable.Keys, todo, name, out);
      if name !in unresolvable {
        if name !in out {
          out := out[name := Status(Unschedulable, [failed[name]])];
        } else {
          out := out[name := out[name].(reasons := out[name].reasons + [failed[name]])];
        }
      }
    }
    assert unresolvable.Keys + {} == unresolvable.Keys;
  }

  // Visiting one more failed name.
  lemma Visited(statuses: Statuses, failed: map<string, string>, skip: set<string>, todo: set<string>, name: string, before: Statuses)
    requires name in failed && name !in todo
    requires before == Rejected(statuses, Without(failed, skip + (todo + {name})))
    ensures Rejected(statuses, Without(failed, skip + todo)) ==
      if name in skip then before
      else if name in before then before[name := before[name].(reasons := before[name].reasons + [failed[name]])]
      else before[name := Status(Unschedulable, [failed[name]])]
  {
  }

  // ----- the fold over the extenders -----

  ghost function Fold(extenders: seq<Extender>, feasible: seq<string>, statuses: Statuses): (Option<seq<string>>, Statuses) {
    if extenders == [] || feasible == [] then (Some(feasible), statuses)
    else
      var e, rest := extenders[0], extenders[1..];
      if !e.interested then Fold(rest, feasible, statuses)
      else
        match e.filter(feasible)
        case FilterError => if e.ignorable then Fold(rest, feasible, statuses) else (None, statuses)
        case Filtered(kept, failed, unresolvable) => Fold(rest, kept, AfterReply(statuses, e.filter(feasible)))
  }

  // Every way of visiting the maps gives this one result, so codes and reasons do not depend on it.
  method FindNodesThatPassExtenders(extenders: seq<Extender>, nodes: seq<string>, before: Statuses)
    returns (feasible: Option<seq<string>>, statuses: Statuses)
    ensures (feasible, statuses) == Fold(extenders, nodes, before)
    ensures feasible == None <==> AnyAborts(extenders, nodes)
    ensures feasible.Some? ==>
      feasible.value == ListFor(extenders, nodes, |extenders|) && statuses == StatusesFor(extenders, nodes, before, |extenders|)
  {
    FailsIff(extenders, nodes, before);
    var current := nodes;
    statuses := before;
    for i := 0 to |extenders|
      invariant Fold(extenders[i..], current, statuses) == Fold(extenders, nodes, before)
    {
      if |current| == 0 {
        break;
      }
      assert extenders[i..][1..] == extenders[i + 1..];
      if !extenders[i].interested {
        continue;
      }
      var reply := extenders[i].filter(current);
      if reply.FilterError? {
        if extenders[i].ignorable {
          continue;
        }
        return None, statuses;
      }
      statuses := MarkUnresolvable(statuses, reply.unresolvable);
      statuses := MarkFailed(statuses, reply.failed, reply.unresolvable);
      current := reply.feasible;
    }
    return Some(current), statuses;
  }

  // ----- what the fold guarantees -----

  // The reply puts every input node into the list or into a failure map, and never into both.
  ghost predicate SplitsInput(r: Reply, input: seq<string>) {
    r.Filtered? ==>
      && Members(r.feasible) + r.failed.Keys + r.unresolvable.Keys == Members(input)
      && Members(r.feasible) !! r.failed.Keys + r.unresolvable.Keys
  }

  // Every extender that is asked splits the list it is given.
  ghost predicate WellBehaved(extenders: seq<Extender>, feasible: seq<string>) {
    extenders == [] || feasible == [] ||
    var e, rest := extenders[0], extenders[1..];
    var r := e.filter(feasible);
    if e.interested && r.Filtered? then SplitsInput(r, feasible) && WellBehaved(rest, r.feasible)
    else WellBehaved(rest, feasible)
  }

  // Nothing is lost: of the nodes that came in, those not returned are exactly the new status entries.
  lemma {:induction false} FoldPartitions(extenders: seq<Extender>, feasible: seq<string>, statuses: Statuses)
    requires WellBehaved(extenders, feasible)
    requires Members(feasible) !! statuses.Keys
    ensures var (out, after) := Fold(extenders, feasible, statuses);
      && after.Keys >= statuses.Keys
      && (out.Some? ==>
           && Members(out.value) <= Members(feasible)
           && Members(out.value) !! after.Keys
           && after.Keys == statuses.Keys + (Members(feasible) - Members(out.value)))
    decreases |extenders|
  {
    if extenders != [] && feasible != [] {
      var e, rest := extenders[0], extenders[1..];
      var r := e.filter(feasible);
      if e.interested && r.Filtered? {
        FoldPartitions(rest, r.feasible, AfterReply(statuses, r));
      } else {
        FoldPartitions(rest, feasible, statuses);
      }
    }
  }

  lemma EveryNodeOnce(extenders: seq<Extender>, feasible: seq<string>, statuses: Statuses, name: string)
    requires WellBehaved(extenders, feasible) && Members(feasible) !! statuses.Keys && name in feasible
    ensures var (out, after) := Fold(extenders, feasible, statuses);
      out.Some? ==> ((name in out.value) != (name in after))
  {
    FoldPartitions(extenders, feasible, statuses);
    assert name in Members(feasible);
    var (out, after) := Fold(extenders, feasible, statuses);
    if out.Some? {
      assert name in out.value <==> name in Members(out.value);
    }
  }

  // A recorded status keeps its reasons, and its code can only become the unresolvable one:
  // a node once marked UnschedulableAndUnresolvable is never downgraded.
  lemma {:induction false} NeverDowngraded(extenders: seq<Extender>, feasible: seq<string>, statuses: Statuses, name: string)
    requires name in statuses
    ensures var (out, after) := Fold(extenders, feasible, statuses);
      && name in after && statuses[name].reasons <= after[name].reasons
      && (after[name].code == statuses[name].code || after[name].code == UnschedulableAndUnresolvable)
    decreases |extenders|
  {
    if extenders != [] && feasible != [] {
      var e, rest := extenders[0], extenders[1..];
      var r := e.filter(feasible);
      if e.interested && r.Filtered? {
        NeverDowngraded(rest, r.feasible, AfterReply(statuses, r), name);
      } else {
        NeverDowngraded(rest, feasible, statuses, name);
      }
    }
  }

  // No extender that was asked put the node into one of its failure maps.
  ghost predicate NeverFailed(extenders: seq<Extender>, feasible: seq<string>, name: string) {
    extenders == [] || feasible == [] ||
    var e, rest := extenders[0], extenders[1..];
    var r := e.filter(feasible);
    if e.interested && r.Filtered? then name !in r.failed && name !in r.unresolvable && NeverFailed(rest, r.feasible, name)
    else NeverFailed(rest, feasible, name)
  }

  lemma {:induction false} NoStatusNeverFailed(extenders: seq<Extender>, feasible: seq<string>, statuses: Statuses, name: string)
    requires var (out, after) := Fold(extenders, feasible, statuses); out.Some? && name !in after
    ensures NeverFailed(extenders, feasible, name)
    decreases |extenders|
  {
    if extenders != [] && feasible != [] {
      var e, rest := extenders[0], extenders[1..];
      var r := e.filter(feasible);
      if e.interested && r.Filtered? {
        if name in AfterReply(statuses, r) {
          NeverDowngraded(rest, r.feasible, AfterReply(statuses, r), name);
        }
        NoStatusNeverFailed(rest, r.feasible, AfterReply(statuses, r), name);
      } else {
        NoStatusNeverFailed(rest, feasible, statuses, name);
      }
    }
  }

  // ----- which extender ends the fold, and what each of them receives -----

  // The list that the i-th extender receives when none before it ended the fold.
  ghost function ListFor(extenders: seq<Extender>, feasible: seq<string>, i: nat): seq<string>
    requires i <= |extenders|
  {
    if i == 0 then feasible
    else
      var list, e := ListFor(extenders, feasible, i - 1), extenders[i - 1];
      if Asked(e, list) then e.filter(list).feasible else list
  }

  // The extender gets the list, which has nodes in it, and answers it.
  ghost predicate Asked(e: Extender, list: seq<string>) {
    list != [] && e.interested && e.filter(list).Filtered?
  }

  // The statuses that it finds.
  ghost function StatusesFor(extenders: seq<Extender>, feasible: seq<string>, statuses: Statuses, i: nat): Statuses
    requires i <= |extenders|
  {
    if i == 0 then statuses
    else
      var list, e, before := ListFor(extenders, feasible, i - 1), extenders[i - 1], StatusesFor(extenders, feasible, statuses, i - 1);
      if Asked(e, list) then AfterReply(before, e.filter(list)) else before
  }

  // An extender that is interested receives a list with nodes in it and answers an error.
  ghost predicate Errs(extenders: seq<Extender>, feasible: seq<string>, i: nat)
    requires i < |extenders|
  {
    var list := ListFor(extenders, feasible, i);
    list != [] && extenders[i].interested && extenders[i].filter(list) == FilterError
  }

  ghost predicate Aborts(extenders: seq<Extender>, feasible: seq<string>, i: nat)
    requires i < |extenders|
  {
    Errs(extenders, feasible, i) && !extenders[i].ignorable
  }

  lemma {:induction false} ListForRest(extenders: seq<Extender>, feasible: seq<string>, i: nat)
    requires 1 <= i <= |extenders|
    ensures ListFor(extenders, feasible, i) == ListFor(extenders[1..], ListFor(extenders, feasible, 1), i - 1)
  {
    if i > 1 {
      ListForRest(extenders, feasible, i - 1);
      assert extenders[1..][i - 2] == extenders[i - 1];
    }
  }

  lemma {:induction false} StatusesForRest(extenders: seq<Extender>, feasible: seq<string>, statuses: Statuses, i: nat)
    requires 1 <= i <= |extenders|
    ensures StatusesFor(extenders, feasible, statuses, i)
         == StatusesFor(extenders[1..], ListFor(extenders, feasible, 1), StatusesFor(extenders, feasible, statuses, 1), i - 1)
  {
    if i > 1 {
      StatusesForRest(extenders, feasible, statuses, i - 1);
      ListForRest(extenders, feasible, i - 1);
      assert extenders[1..][i - 2] == extenders[i - 1];
    }
  }

  ghost predicate AnyAborts(extenders: seq<Extender>, feasible: seq<string>) {
    exists i: nat :: i < |extenders| && Aborts(extenders, feasible, i)
  }

  lemma AbortsShift(extenders: seq<Extender>, feasible: seq<string>, i: nat)
    requires 1 <= i < |extenders|
    ensures Aborts(extenders, feasible, i) <==> Aborts(extenders[1..], ListFor(extenders, feasible, 1), i - 1)
  {
    ListForRest(extenders, feasible, i);
  }

  lemma AbortsRest(extenders: seq<Extender>, feasible: seq<string>)
    requires extenders != []
    ensures AnyAborts(extenders, feasible) <==>
      Aborts(extenders, feasible, 0) || AnyAborts(extenders[1..], ListFor(extenders, feasible, 1))
  {
    if AnyAborts(extenders, feasible) {
      var i: nat :| i < |extenders| && Aborts(extenders, feasible, i);
      if i > 0 {
        AbortsShift(extenders, feasible, i);
      }
    }
    if AnyAborts(extenders[1..], ListFor(extenders, feasible, 1)) {
      var i: nat :| i < |extenders[1..]| && Aborts(extenders[1..], ListFor(extenders, feasible, 1), i);
      AbortsShift(extenders, feasible, i + 1);
    }
  }

  lemma FoldStep(extenders: seq<Extender>, feasible: seq<string>, statuses: Statuses)
    requires extenders != [] && feasible != []
    ensures Fold(extenders, feasible, statuses) ==
      if Aborts(extenders, feasible, 0) then (None, statuses)
      else Fold(extenders[1..], ListFor(extenders, feasible, 1), StatusesFor(extenders, feasible, statuses, 1))
  {
  }

  lemma {:induction false} NothingForEmpty(extenders: seq<Extender>, statuses: Statuses, i: nat)
    requires i <= |extenders|
    ensures ListFor(extenders, [], i) == [] && StatusesFor(extenders, [], statuses, i) == statuses
    ensures i < |extenders| ==> !Aborts(extenders, [], i)
  {
    if i > 0 {
      NothingForEmpty(extenders, statuses, i - 1);
    }
  }

  // The fold gives no list exactly when some interested extender that is reached with nodes errors and may not
  // be ignored; else it gives the list and the statuses behind the last extender.
  lemma {:induction false} FailsIff(extenders: seq<Extender>, feasible: seq<string>, statuses: Statuses)
    ensures var (out, after) := Fold(extenders, feasible, statuses);
      && (out == None <==> AnyAborts(extenders, feasible))
      && (out.Some? ==> out.value == ListFor(extenders, feasible, |extenders|))
      && (out.Some? ==> after == StatusesFor(extenders, feasible, statuses, |extenders|))
    decreases |extenders|
  {
    if extenders == [] {
    } else if feasible == [] {
      forall i: nat | i < |extenders| ensures !Aborts(extenders, [], i) {
        NothingForEmpty(extenders, statuses, i);
      }
      NothingForEmpty(extenders, statuses, |extenders|);
    } else {
      FoldStep(extenders, feasible, statuses);
      AbortsRest(extenders, feasible);
      ListForRest(extenders, feasible, |extenders|);
      StatusesForRest(extenders, feasible, statuses, |extenders|);
      if !Aborts(extenders, feasible, 0) {
        FailsIff(extenders[1..], ListFor(extenders, feasible, 1), StatusesFor(extenders, feasible, statuses, 1));
      }
    }
  }

  // ----- the status a node ends with -----

  // What the first i extenders say about a node, in order; the unresolvable message comes before the other one.
  ghost function Told(extenders: seq<Extender>, feasible: seq<string>, name: string, i: nat): seq<string>
    requires i <= |extenders|
  {
    if i == 0 then []
    else
      var list, e := ListFor(extenders, feasible, i - 1), extenders[i - 1];
      Told(extenders, feasible, name, i - 1)
      + if !Asked(e, list) then []
        else if name in e.filter(list).unresolvable then [e.filter(list).unresolvable[name]]
        else if name in e.filter(list).failed then [e.filter(list).failed[name]]
        else []
  }

  // One of the first i extenders finds the node unresolvable.
  ghost predicate Unresolvable(extenders: seq<Extender>, feasible: seq<string>, name: string, i: nat)
    requires i <= |extenders|
  {
    exists j: nat :: j < i && FindsUnresolvable(extenders, feasible, name, j)
  }

  ghost predicate FindsUnresolvable(extenders: seq<Extender>, feasible: seq<string>, name: string, j: nat)
    requires j < |extenders|
  {
    var list := ListFor(extenders, feasible, j);
    Asked(extenders[j], list) && name in extenders[j].filter(list).unresolvable
  }

  ghost predicate EndsWith(statuses: Statuses, after: Statuses, name: string, told: seq<string>, unresolvable: bool) {
    && (name in after <==> name in statuses || told != [])
    && (name in after ==>
         && after[name].reasons == Reasons(statuses, name) + told
         && after[name].code == if unresolvable then UnschedulableAndUnresolvable
                                else if name in statuses then statuses[name].code else Unschedulable)
    && (unresolvable ==> name in after)
  }

  lemma ReplyEnds(statuses: Statuses, before: Statuses, r: Reply, name: string, told: seq<string>, unresolvable: bool)
    requires r.Filtered? && EndsWith(statuses, before, name, told, unresolvable)
    ensures var message := if name in r.unresolvable then [r.unresolvable[name]] else if name in r.failed then [r.failed[name]] else [];
      EndsWith(statuses, AfterReply(before, r), name, told + message, unresolvable || name in r.unresolvable)
  {
  }

  lemma {:induction false} StatusSoFar(extenders: seq<Extender>, feasible: seq<string>, statuses: Statuses, name: string, i: nat)
    requires i <= |extenders|
    ensures EndsWith(statuses, StatusesFor(extenders, feasible, statuses, i), name,
                     Told(extenders, feasible, name, i), Unresolvable(extenders, feasible, name, i))
  {
    if i > 0 {
      StatusSoFar(extenders, feasible, statuses, name, i - 1);
      var list, e, before := ListFor(extenders, feasible, i - 1), extenders[i - 1], StatusesFor(extenders, feasible, statuses, i - 1);
      if Asked(e, list) {
        ReplyEnds(statuses, before, e.filter(list), name, Told(extenders, feasible, name, i - 1),
                  Unresolvable(extenders, feasible, name, i - 1));
      }
      assert Unresolvable(extenders, feasible, name, i) <==>
        Unresolvable(extenders, feasible, name, i - 1) || FindsUnresolvable(extenders, feasible, name, i - 1);
    }
  }

  // A node has a status in the end if it had one before or some extender failed it.  Its reasons are those it had
  // and then every message in order; its code is the unresolvable one if any extender says so, and else the one it
  // had, or Unschedulable.
  lemma FinalStatus(extenders: seq<Extender>, feasible: seq<string>, statuses: Statuses, name: string)
    ensures var (out, after) := Fold(extenders, feasible, statuses);
      out.Some? ==> EndsWith(statuses, after, name, Told(extenders, feasible, name, |extenders|),
                             Unresolvable(extenders, feasible, name, |extenders|))
  {
    FailsIff(extenders, feasible, statuses);
    StatusSoFar(extenders, feasible, statuses, name, |extenders|);
  }

  // An extender that errors but may be ignored, or is not interested, might as well not be there.
  lemma {:induction false} MayBeRemoved(extenders: seq<Extender>, feasible: seq<string>, statuses: Statuses, i: nat)
    requires i < |extenders|
    requires !extenders[i].interested || (extenders[i].ignorable && Errs(extenders, feasible, i))
    ensures Fold(extenders[..i] + extenders[i + 1..], feasible, statuses) == Fold(extenders, feasible, statuses)
    decreases i
  {
    var others := extenders[..i] + extenders[i + 1..];
    if i == 0 {
      assert others == extenders[1..];
    } else if feasible != [] {
      ListForRest(extenders, feasible, i);
      assert others[0] == extenders[0] && others[1..] == extenders[1..][..i - 1] + extenders[1..][i..];
      FoldStep(extenders, feasible, statuses);
      FoldStep(others, feasible, statuses);
      MayBeRemoved(extenders[1..], ListFor(extenders, feasible, 1), StatusesFor(extenders, feasible, statuses, 1), i - 1);
    }
  }
}
