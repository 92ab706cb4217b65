/** findNodesThatPassFilters: what holds throughout and at the end of every run of its workers. */
module FilterSearch {
  import opened Collections
  import opened Options
  import opened SearchSteps

  lemma {:induction false} EveryRunKeepsInv(c: Search, steps: seq<Step>, s: State)
    requires c.Valid() && Leads(c, steps, s)
    ensures Inv(c, s)
  {
    if steps == [] {
      InitialInv(c);
    } else {
      var front, last := steps[..|steps| - 1], steps[|steps| - 1];
      var before :| Leads(c, front, before) && Enabled(c, before, last) && s == Apply(c, before, last);
      EveryRunKeepsInv(c, front, before);
      StepKeepsInv(c, before, last);
    }
  }

  // ----- what every interleaving guarantees -----

  // No checkNode call is under way, and none will be started: all are taken or the search is cancelled.
  ghost predicate Finished(s: State) {
    forall i :: 0 <= i < |s.pieces| ==>
      var p := s.pieces[i];
      (p == Waiting && s.cancelled) || p == Refused || p == Faulted || p.Kept? || p == Retracted
  }

  ghost function Below(n: nat): (r: set<nat>)
    ensures |r| == n && forall i :: i in r <==> 0 <= i < n
  {
    if n == 0 then {} else var r := Below(n - 1); assert n - 1 !in r; r + {n - 1}
  }

  lemma BoundedSize(a: set<nat>, b: set<nat>, n: nat)
    requires a !! b && forall i :: i in a + b ==> i < n
    ensures |a| + |b| <= n
  {
    assert forall i :: i in a + b ==> i in Below(n);
    SubsetSize(a + b, Below(n));
  }

  // The counter may pass the bound, but only by the calls that are about to take their add back;
  // it never passes the number of nodes, so an int32 holds it.
  lemma CounterBound(c: Search, steps: seq<Step>, s: State)
    requires c.Valid() && Leads(c, steps, s)
    ensures 0 <= s.counter <= c.want + |Overs(s)|
    ensures s.counter <= |c.nodes|
    ensures s.counter > c.want ==> |Holders(s)| == c.want
  {
    EveryRunKeepsInv(c, steps, s);
    BoundedSize(Holders(s), Overs(s), |c.nodes|);
  }

  // A slot is in range and still empty when it is written, and nobody else will write it.
  lemma SlotWrittenOnce(c: Search, steps: seq<Step>, s: State, i: nat, j: nat)
    requires c.Valid() && Leads(c, steps, s) && Enabled(c, s, Write(i))
    ensures |s.slots| == c.want
    ensures 0 <= s.pieces[i].slot < c.want && s.slots[s.pieces[i].slot] == None
    ensures j < |s.pieces| && j != i && IsHolder(s.pieces[j]) ==> s.pieces[j].slot != s.pieces[i].slot
  {
    EveryRunKeepsInv(c, steps, s);
    assert i in Holders(s) && PieceInv(c, s, i);
    assert j < |s.pieces| && IsHolder(s.pieces[j]) ==> j in Holders(s);
  }

  lemma FinishedRoles(c: Search, s: State)
    requires c.Valid() && Inv(c, s) && Finished(s)
    ensures s.counter == |Holders(s)| <= c.want
    ensures forall i :: i in Holders(s) ==> s.pieces[i].Kept?
  {
    assert forall i :: i in Overs(s) ==> IsOver(s.pieces[i]);
    assert Overs(s) == {};
  }

  // feasibleNodes[:feasibleNodesLen] has no gap and no repetition and holds only nodes that passed;
  // who[k] is the piece behind entry k.
  lemma FinishedList(c: Search, steps: seq<Step>, s: State) returns (who: seq<nat>)
    requires c.Valid() && Leads(c, steps, s) && Finished(s)
    ensures 0 <= s.counter <= c.want && |who| == s.counter && |s.slots| == c.want && |s.pieces| == |c.nodes|
    ensures forall k :: 0 <= k < s.counter ==>
      && who[k] < |c.nodes| && s.pieces[who[k]] == Kept(k) && c.verdicts[who[k]] == Fits
      && s.slots[k] == Some(c.NodeAt(who[k]))
    ensures forall k, l :: 0 <= k < l < s.counter ==> who[k] != who[l]
    ensures forall k :: s.counter <= k < c.want ==> s.slots[k] == None
    ensures forall i: nat :: i < |s.pieces| && s.pieces[i].Kept? ==> i in who
  {
    EveryRunKeepsInv(c, steps, s);
    FinishedRoles(c, s);
    who := [];
    while |who| < s.counter
      invariant |who| <= s.counter
      invariant forall k :: 0 <= k < |who| ==> Holds(s, who[k], k)
    {
      assert Taken(s, |who|);
      var i: nat :| Holds(s, i, |who|);
      who := who + [i];
    }
    forall k | 0 <= k < s.counter
      ensures s.pieces[who[k]] == Kept(k) && c.verdicts[who[k]] == Fits && s.slots[k] == Some(c.NodeAt(who[k]))
    {
      assert Holds(s, who[k], k) && who[k] in Holders(s) && PieceInv(c, s, who[k]);
    }
    forall i: nat | i < |s.pieces| && s.pieces[i].Kept? ensures i in who {
      assert i in Holders(s);
      var k := s.pieces[i].slot;
      assert Holds(s, who[k], k) && who[k] in Holders(s);
      assert who[k] == i;
    }
  }

  // Written out: entry k is the node that one piece reaches from the start index.
  lemma ListedNode(c: Search, steps: seq<Step>, s: State, k: nat) returns (i: nat)
    requires c.Valid() && Leads(c, steps, s) && Finished(s) && k < s.counter
    ensures i < |c.nodes| && c.verdicts[i] == Fits
    ensures k < |s.slots| && s.slots[k] == Some(c.nodes[(c.start + i) % |c.nodes|])
  {
    var who := FinishedList(c, steps, s);
    i := who[k];
  }

  ghost predicate Passed(c: Search, s: State, i: nat)
    requires c.Valid() && i < |c.nodes| == |s.results| == |s.pieces|
  {
    && c.verdicts[i] == Fits && s.results[i] == None && s.pieces[i].Kept?
    && 0 <= s.pieces[i].slot < s.counter <= |s.slots| && s.slots[s.pieces[i].slot] == Some(c.NodeAt(i))
  }

  ghost predicate Failed(c: Search, s: State, i: nat)
    requires c.Valid() && i < |c.nodes| == |s.results| == |s.pieces|
  {
    c.verdicts[i].Rejected? && s.results[i] == Some(c.verdicts[i].reason) && s.pieces[i] == Refused
  }

  // A reason is recorded for exactly the nodes that failed the filters.
  lemma FinishedResults(c: Search, steps: seq<Step>, s: State, i: nat)
    requires c.Valid() && Leads(c, steps, s) && Finished(s) && i < |c.nodes|
    ensures |s.pieces| == |s.results| == |c.nodes|
    ensures s.results[i].Some? <==> s.pieces[i] == Refused
    ensures s.results[i].Some? <==> Failed(c, s, i)
    ensures s.pieces[i].Kept? <==> Passed(c, s, i)
  {
    EveryRunKeepsInv(c, steps, s);
    FinishedRoles(c, s);
    assert PieceInv(c, s, i);
    assert s.pieces[i].Kept? ==> i in Holders(s);
  }

  // Without an error or an outside stop, either exactly the wanted number of nodes was found, or every
  // node was checked and is in exactly one of the feasible list and the recorded failures.
  lemma SearchIsComplete(c: Search, steps: seq<Step>, s: State)
    requires c.Valid() && Leads(c, steps, s) && Finished(s)
    requires !s.errorSent && !s.stopped
    ensures |s.pieces| == |s.results| == |c.nodes|
    ensures s.counter == c.want || forall i: nat :: i < |c.nodes| ==> Passed(c, s, i) != Failed(c, s, i)
  {
    EveryRunKeepsInv(c, steps, s);
    FinishedRoles(c, s);
    if s.counter != c.want {
      forall i: nat | i < |c.nodes| ensures Passed(c, s, i) != Failed(c, s, i) {
        FinishedResults(c, steps, s, i);
        assert PieceInv(c, s, i);
      }
    }
  }
}
