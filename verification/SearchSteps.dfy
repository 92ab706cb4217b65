/** The steps of findNodesThatPassFilters, the parallel search for feasible nodes, and what each one keeps.
    Every checkNode call is a piece that advances by atomic steps: take the piece, run the filters,
    atomic add and compare, then either a slot write or a cancel followed by an atomic subtract.
    A run is any sequence of enabled steps, so a fact about all runs covers all interleavings. */
module SearchSteps {
  import opened Options

  // What RunFilterPluginsWithNominatedPods answers for a node.
  datatype Verdict = Fits | Rejected(reason: string) | Errored

  // verdicts[i] belongs to piece i, that is to the i-th node counted from the start index.
  datatype Search = Search(nodes: seq<string>, start: nat, want: nat, verdicts: seq<Verdict>)
  {
    ghost predicate Valid() {
      |verdicts| == |nodes|
    }

    function NodeAt(i: nat): string
      requires nodes != []
    {
      nodes[(start + i) % |nodes|]
    }
  }

  datatype Piece =
    | Waiting
    | Filtering
    | Refused
    | Faulting           // error sent, cancel still to come
    | Faulted
    | Claimed(slot: int) // the add stayed within the bound, slot still to be written
    | Kept(slot: int)
    | Overshot           // the add went past the bound, cancel still to come
    | Retracting         // cancelled, subtract still to come
    | Retracted

  datatype State = State(
    pieces: seq<Piece>,
    counter: int,                   // feasibleNodesLen
    slots: seq<Option<string>>,     // feasibleNodes
    results: seq<Option<string>>,   // result
    cancelled: bool,
    errorSent: bool,
    stopped: bool,                  // the caller's context was cancelled
    crashed: bool)                  // a slot index was out of range

  datatype Step =
    | Start(i: nat)
    | Refuse(i: nat)
    | SendError(i: nat)
    | CancelOnError(i: nat)
    | Add(i: nat)
    | Write(i: nat)
    | CancelOnOvershoot(i: nat)
    | Subtract(i: nat)
    | Stop

  ghost function Initial(c: Search): State {
    State(seq(|c.nodes|, i => Waiting), 0, seq(c.want, i => None), seq(|c.nodes|, i => None), false, false, false, false)
  }

  ghost predicate Enabled(c: Search, s: State, step: Step)
    requires c.Valid()
  {
    if step.Stop? then true
    else if step.i >= |s.pieces| || |s.pieces| != |c.nodes| || |s.results| != |c.nodes| then false
    else
      var p := s.pieces[step.i];
      match step
      case Start(i) => p == Waiting && !s.cancelled
      case Refuse(i) => p == Filtering && c.verdicts[i].Rejected?
      case SendError(i) => p == Filtering && c.verdicts[i] == Errored
      case CancelOnError(i) => p == Faulting
      case Add(i) => p == Filtering && c.verdicts[i] == Fits
      case Write(i) => p.Claimed?
      case CancelOnOvershoot(i) => p == Overshot
      case Subtract(i) => p == Retracting
  }

  ghost function Apply(c: Search, s: State, step: Step): State
    requires c.Valid() && Enabled(c, s, step)
  {
    match step
    case Start(i) => s.(pieces := s.pieces[i := Filtering])
    case Refuse(i) => s.(pieces := s.pieces[i := Refused], results := s.results[i := Some(c.verdicts[i].reason)])
    case SendError(i) => s.(pieces := s.pieces[i := Faulting], errorSent := true)
    case CancelOnError(i) => s.(pieces := s.pieces[i := Faulted], cancelled := true)
    case Add(i) =>
      s.(counter := s.counter + 1,
         pieces := s.pieces[i := if s.counter + 1 > c.want then Overshot else Claimed(s.counter)])
    case Write(i) =>
      var k := s.pieces[i].slot;
      if 0 <= k < |s.slots|
      then s.(slots := s.slots[k := Some(c.NodeAt(i))], pieces := s.pieces[i := Kept(k)])
      else s.(crashed := true)
    case CancelOnOvershoot(i) => s.(pieces := s.pieces[i := Retracting], cancelled := true)
    case Subtract(i) => s.(counter := s.counter - 1, pieces := s.pieces[i := Retracted])
    case Stop => s.(cancelled := true, stopped := true)
  }

  // The states a run of steps leads to.
  ghost predicate Leads(c: Search, steps: seq<Step>, s: State)
    requires c.Valid()
  {
    if steps == [] then s == Initial(c)
    else
      var last := steps[|steps| - 1];
      exists before :: Leads(c, steps[..|steps| - 1], before) && Enabled(c, before, last) && s == Apply(c, before, last)
  }

  // ----- the invariant -----

  predicate IsHolder(p: Piece) {
    p.Claimed? || p.Kept?
  }

  predicate IsOver(p: Piece) {
    p == Overshot || p == Retracting
  }

  ghost function Holders(s: State): set<nat> {
    set i: nat | i < |s.pieces| && IsHolder(s.pieces[i])
  }

  ghost function Overs(s: State): set<nat> {
    set i: nat | i < |s.pieces| && IsOver(s.pieces[i])
  }

  ghost predicate Holds(s: State, i: nat, k: int) {
    i < |s.pieces| && IsHolder(s.pieces[i]) && s.pieces[i].slot == k
  }

  ghost predicate Taken(s: State, k: int) {
    exists i: nat :: Holds(s, i, k)
  }

  // The counter is the number of slot holders plus the overshoot that is still to be taken back,
  // and there is overshoot only once all the wanted slots are held.
  ghost predicate CountInv(c: Search, s: State)
    requires c.Valid()
  {
    && |s.pieces| == |s.results| == |c.nodes| && |s.slots| == c.want && !s.crashed
    && s.counter == |Holders(s)| + |Overs(s)| && |Holders(s)| <= c.want
    && (forall i :: 0 <= i < |s.pieces| && (IsOver(s.pieces[i]) || s.pieces[i] == Retracted) ==> |Holders(s)| == c.want)
    && (s.cancelled ==> s.stopped || s.errorSent || |Holders(s)| == c.want)
  }

  // The slots 0 .. |Holders| - 1 have one holder each.
  ghost predicate SlotInv(c: Search, s: State)
    requires c.Valid()
  {
    && |s.pieces| == |c.nodes| && |s.slots| == c.want
    && (forall i: nat :: i in Holders(s) ==> 0 <= s.pieces[i].slot < |Holders(s)|)
    && (forall i: nat, j: nat :: i in Holders(s) && j in Holders(s) && s.pieces[i].slot == s.pieces[j].slot ==> i == j)
    && (forall k :: 0 <= k < |Holders(s)| ==> Taken(s, k))
  }

  // What a piece did agrees with its verdict, and its slot is empty until the piece writes it.
  ghost predicate PieceInv(c: Search, s: State, i: nat)
    requires c.Valid() && i < |c.nodes| == |s.results| == |s.pieces| && |s.slots| == c.want
  {
    var p := s.pieces[i];
    && Agrees(p, c.verdicts[i])
    && s.results[i] == (if p == Refused && c.verdicts[i].Rejected? then Some(c.verdicts[i].reason) else None)
    && (p == Faulting || p == Faulted ==> s.errorSent)
    && (IsHolder(p) && 0 <= p.slot < c.want ==> s.slots[p.slot] == if p.Kept? then Some(c.NodeAt(i)) else None)
  }

  // The verdict a piece must have had, Rejected standing for any reason.
  ghost predicate Agrees(p: Piece, v: Verdict) {
    match p
    case Waiting => true
    case Filtering => true
    case Refused => v.Rejected?
    case Faulting => v == Errored
    case Faulted => v == Errored
    case _ => v == Fits
  }

  ghost predicate WorkInv(c: Search, s: State)
    requires c.Valid()
  {
    && |s.pieces| == |s.results| == |c.nodes| && |s.slots| == c.want
    && (forall i: nat :: i < |s.pieces| ==> PieceInv(c, s, i))
    && (forall k: nat :: |Holders(s)| <= k < c.want ==> s.slots[k] == None)
  }

  ghost predicate Inv(c: Search, s: State)
    requires c.Valid()
  {
    CountInv(c, s) && SlotInv(c, s) && WorkInv(c, s)
  }

  lemma InitialInv(c: Search)
    requires c.Valid()
    ensures Inv(c, Initial(c))
  {
    assert Holders(Initial(c)) == {} && Overs(Initial(c)) == {};
  }

  lemma SetPiece(s: State, t: State, i: nat, p: Piece)
    requires i < |s.pieces| && t.pieces == s.pieces[i := p]
    ensures Holders(t) == if IsHolder(p) then Holders(s) + {i} else Holders(s) - {i}
    ensures Overs(t) == if IsOver(p) then Overs(s) + {i} else Overs(s) - {i}
  {
  }

  // Piece i moved on without claiming a slot or touching the counter.
  ghost predicate Quiet(c: Search, s: State, t: State, i: nat)
    requires i < |s.pieces|
  {
    && t.pieces == s.pieces[i := if i < |t.pieces| then t.pieces[i] else Waiting]
    && (IsHolder(t.pieces[i]) <==> IsHolder(s.pieces[i])) && (IsOver(t.pieces[i]) <==> IsOver(s.pieces[i]))
    && (IsHolder(s.pieces[i]) ==> t.pieces[i].slot == s.pieces[i].slot)
    && t.pieces[i] != Retracted
    && t.counter == s.counter && |t.slots| == |s.slots| && |t.results| == |s.results| && !t.crashed
    && t.stopped == s.stopped && (s.errorSent ==> t.errorSent)
    && (t.cancelled ==> s.cancelled || t.errorSent || IsOver(s.pieces[i]))
  }

  lemma QuietKeepsRoles(c: Search, s: State, t: State, i: nat)
    requires i < |s.pieces| && Quiet(c, s, t, i)
    ensures Holders(t) == Holders(s) && Overs(t) == Overs(s)
  {
    SetPiece(s, t, i, t.pieces[i]);
    assert i in Holders(s) <==> IsHolder(s.pieces[i]);
    assert i in Overs(s) <==> IsOver(s.pieces[i]);
  }

  lemma QuietKeepsSlots(c: Search, s: State, t: State, i: nat)
    requires c.Valid() && CountInv(c, s) && SlotInv(c, s) && i < |s.pieces| && Quiet(c, s, t, i)
    ensures CountInv(c, t) && SlotInv(c, t) && Holders(t) == Holders(s)
  {
    QuietKeepsRoles(c, s, t, i);
    KeepTaken(s, t);
  }

  lemma KeepTaken(s: State, t: State)
    requires Holders(t) == Holders(s) && forall i: nat :: i in Holders(s) ==> t.pieces[i].slot == s.pieces[i].slot
    ensures forall k :: Taken(s, k) ==> Taken(t, k)
  {
    forall k | Taken(s, k) ensures Taken(t, k) {
      var i: nat :| Holds(s, i, k);
      assert i in Holders(t);
      assert Holds(t, i, k);
    }
  }

  // If the slots did not change, only the moved piece needs another look.
  lemma WorkKept(c: Search, s: State, t: State, i: nat)
    requires c.Valid() && WorkInv(c, s) && i < |s.pieces| == |t.pieces|
    requires t.pieces == s.pieces[i := t.pieces[i]] && t.slots == s.slots && (s.errorSent ==> t.errorSent)
    requires |t.results| == |s.results| && t.results == s.results[i := t.results[i]] && PieceInv(c, t, i)
    requires |Holders(s)| <= |Holders(t)|
    ensures WorkInv(c, t)
  {
    forall j: nat | j < |t.pieces| ensures PieceInv(c, t, j) {
      assert PieceInv(c, s, j);
    }
  }

  // Taking a piece, refusing it, reporting an error, or cancelling.
  lemma PlainStepKeepsInv(c: Search, s: State, step: Step)
    requires c.Valid() && Inv(c, s) && Enabled(c, s, step)
    requires step.Start? || step.Refuse? || step.SendError? || step.CancelOnError? || step.CancelOnOvershoot?
    ensures Inv(c, Apply(c, s, step))
  {
    var t := Apply(c, s, step);
    assert PieceInv(c, s, step.i);
    QuietKeepsSlots(c, s, t, step.i);
    WorkKept(c, s, t, step.i);
  }

  lemma SubtractRoles(c: Search, s: State, i: nat)
    requires c.Valid() && Enabled(c, s, Subtract(i))
    ensures var t := Apply(c, s, Subtract(i));
      Holders(t) == Holders(s) && |Overs(t)| == |Overs(s)| - 1
  {
    var t := Apply(c, s, Subtract(i));
    SetPiece(s, t, i, t.pieces[i]);
    assert i !in Holders(s) && i in Overs(s);
  }

  lemma SubtractKeepsInv(c: Search, s: State, i: nat)
    requires c.Valid() && Inv(c, s) && Enabled(c, s, Subtract(i))
    ensures Inv(c, Apply(c, s, Subtract(i)))
  {
    var t := Apply(c, s, Subtract(i));
    assert PieceInv(c, s, i);
    SubtractRoles(c, s, i);
    KeepTaken(s, t);
    WorkKept(c, s, t, i);
  }

  lemma StopKeepsInv(c: Search, s: State)
    requires c.Valid() && Inv(c, s)
    ensures Inv(c, Apply(c, s, Stop))
  {
    var t := Apply(c, s, Stop);
    assert Holders(t) == Holders(s) && Overs(t) == Overs(s);
    KeepTaken(s, t);
    forall j: nat | j < |t.pieces| ensures PieceInv(c, t, j) {
      assert PieceInv(c, s, j);
    }
  }

  lemma LateAddRoles(c: Search, s: State, i: nat)
    requires c.Valid() && Enabled(c, s, Add(i)) && s.counter >= c.want
    ensures var t := Apply(c, s, Add(i));
      t.pieces[i] == Overshot && Holders(t) == Holders(s) && |Overs(t)| == |Overs(s)| + 1
  {
    var t := Apply(c, s, Add(i));
    assert i !in Holders(s) && i !in Overs(s);
    SetPiece(s, t, i, t.pieces[i]);
  }

  // An add past the bound happens only when every wanted slot is held already.
  lemma LateAddKeepsInv(c: Search, s: State, i: nat)
    requires c.Valid() && Inv(c, s) && Enabled(c, s, Add(i)) && |Holders(s)| == c.want
    ensures Inv(c, Apply(c, s, Add(i)))
  {
    var t := Apply(c, s, Add(i));
    assert PieceInv(c, s, i);
    LateAddRoles(c, s, i);
    KeepTaken(s, t);
    WorkKept(c, s, t, i);
  }

  // Until then nothing overshoots, so an add claims the first free slot.
  lemma EarlyAddClaims(c: Search, s: State, i: nat)
    requires c.Valid() && Inv(c, s) && Enabled(c, s, Add(i)) && |Holders(s)| < c.want
    ensures var t := Apply(c, s, Add(i));
      && t.pieces[i] == Claimed(|Holders(s)|) && i !in Holders(s)
      && Holders(t) == Holders(s) + {i} && Overs(t) == Overs(s) == {} && t.counter == |Holders(t)|
  {
    assert forall j :: j in Overs(s) ==> IsOver(s.pieces[j]);
    assert Overs(s) == {} && i !in Holders(s);
    SetPiece(s, Apply(c, s, Add(i)), i, Claimed(s.counter));
  }

  lemma EarlyAddKeepsInv(c: Search, s: State, i: nat)
    requires c.Valid() && Inv(c, s) && Enabled(c, s, Add(i)) && |Holders(s)| < c.want
    ensures Inv(c, Apply(c, s, Add(i)))
  {
    var t := Apply(c, s, Add(i));
    assert PieceInv(c, s, i);
    EarlyAddClaims(c, s, i);
    forall k | 0 <= k < |Holders(t)| ensures Taken(t, k) {
      if k < |Holders(s)| {
        assert Taken(s, k);
        var j: nat :| Holds(s, j, k);
        assert Holds(t, j, k);
      } else {
        assert Holds(t, i, k);
      }
    }
    WorkKept(c, s, t, i);
  }

  // The writer is the only holder of its slot, so no other piece's slot changes.
  lemma WriteKeepsInv(c: Search, s: State, i: nat)
    requires c.Valid() && Inv(c, s) && Enabled(c, s, Write(i))
    ensures Inv(c, Apply(c, s, Write(i)))
  {
    var t := Apply(c, s, Write(i));
    assert i in Holders(s) && PieceInv(c, s, i);
    QuietKeepsSlots(c, s, t, i);
    forall j: nat | j < |t.pieces| ensures PieceInv(c, t, j) {
      assert PieceInv(c, s, j);
      if j != i && IsHolder(s.pieces[j]) {
        assert j in Holders(s);
      }
    }
  }

  lemma StepKeepsInv(c: Search, s: State, step: Step)
    requires c.Valid() && Inv(c, s) && Enabled(c, s, step)
    ensures Inv(c, Apply(c, s, step))
  {
    match step {
      case Add(i) =>
        if |Holders(s)| == c.want {
          LateAddKeepsInv(c, s, i);
        } else {
          EarlyAddKeepsInv(c, s, i);
        }
      case Write(i) => WriteKeepsInv(c, s, i);
      case Subtract(i) => SubtractKeepsInv(c, s, i);
      case Stop => StopKeepsInv(c, s);
      case _ => PlainStepKeepsInv(c, s, step);
    }
  }
}
