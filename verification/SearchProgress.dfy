/** How a filter search goes on: every run ends, can only end finished, and is cancelled for a reason. */
module SearchProgress {
  import opened Options
  import opened SearchSteps
  import opened FilterSearch

  // ----- every run comes to an end -----

  // The most steps a piece can still take.
  function StepsLeft(p: Piece): nat {
    match p
    case Waiting => 4
    case Filtering => 3
    case Overshot => 2
    case Faulting => 1
    case Claimed(_) => 1
    case Retracting => 1
    case _ => 0
  }

  ghost function Work(pieces: seq<Piece>): nat {
    if pieces == [] then 0 else Work(pieces[..|pieces| - 1]) + StepsLeft(pieces[|pieces| - 1])
  }

  lemma {:induction false} WorkAfter(pieces: seq<Piece>, i: nat, p: Piece)
    requires i < |pieces|
    ensures Work(pieces[i := p]) == Work(pieces) - StepsLeft(pieces[i]) + StepsLeft(p)
  {
    var n := |pieces| - 1;
    if i < n {
      WorkAfter(pieces[..n], i, p);
      assert pieces[i := p][..n] == pieces[..n][i := p];
    } else {
      assert pieces[i := p][..n] == pieces[..n];
    }
  }

  lemma {:induction false} WorkAtFirst(pieces: seq<Piece>)
    requires forall i :: 0 <= i < |pieces| ==> pieces[i] == Waiting
    ensures Work(pieces) == 4 * |pieces|
  {
    if pieces != [] {
      WorkAtFirst(pieces[..|pieces| - 1]);
    }
  }

  ghost function WorkSteps(steps: seq<Step>): nat {
    if steps == [] then 0 else WorkSteps(steps[..|steps| - 1]) + if steps[|steps| - 1].Stop? then 0 else 1
  }

  lemma SlotInRange(c: Search, s: State, i: nat)
    requires c.Valid() && Inv(c, s) && Enabled(c, s, Write(i))
    ensures 0 <= s.pieces[i].slot < |s.slots|
  {
    assert i in Holders(s);
  }

  lemma PieceAdvances(c: Search, s: State, step: Step)
    requires c.Valid() && Enabled(c, s, step) && !step.Stop?
    requires step.Write? ==> 0 <= s.pieces[step.i].slot < |s.slots|
    ensures var t := Apply(c, s, step);
      && |t.pieces| == |s.pieces| && t.pieces == s.pieces[step.i := t.pieces[step.i]]
      && StepsLeft(t.pieces[step.i]) < StepsLeft(s.pieces[step.i])
  {
  }

  lemma StepDoesWork(c: Search, s: State, step: Step)
    requires c.Valid() && Inv(c, s) && Enabled(c, s, step)
    ensures Work(Apply(c, s, step).pieces) <= Work(s.pieces) - if step.Stop? then 0 else 1
  {
    if !step.Stop? {
      var i := step.i;
      if step.Write? {
        SlotInRange(c, s, i);
      }
      var p := Apply(c, s, step).pieces[i];
      PieceAdvances(c, s, step);
      WorkAfter(s.pieces, i, p);
    }
  }

  // In every run there are at most four steps for each node, apart from outside stops.
  lemma {:induction false} RunsAreShort(c: Search, steps: seq<Step>, s: State)
    requires c.Valid() && Leads(c, steps, s)
    ensures WorkSteps(steps) + Work(s.pieces) <= 4 * |c.nodes|
  {
    if steps == [] {
      WorkAtFirst(s.pieces);
    } else {
      var front, last := steps[..|steps| - 1], steps[|steps| - 1];
      var before :| Leads(c, front, before) && Enabled(c, before, last) && s == Apply(c, before, last);
      RunsAreShort(c, front, before);
      EveryRunKeepsInv(c, front, before);
      StepDoesWork(c, before, last);
    }
  }

  // And until the search is finished some worker can take a step, so every run can only end finished.
  lemma NeverStuck(c: Search, steps: seq<Step>, s: State) returns (step: Step)
    requires c.Valid() && Leads(c, steps, s) && !Finished(s)
    ensures !step.Stop? && Enabled(c, s, step)
  {
    EveryRunKeepsInv(c, steps, s);
    var i: nat :| i < |s.pieces| &&
      var p := s.pieces[i];
      !((p == Waiting && s.cancelled) || p == Refused || p == Faulted || p.Kept? || p == Retracted);
    match s.pieces[i]
    case Waiting => step := Start(i);
    case Filtering =>
      match c.verdicts[i] {
        case Fits => step := Add(i);
        case Rejected(_) => step := Refuse(i);
        case Errored => step := SendError(i);
      }
    case Faulting => step := CancelOnError(i);
    case Claimed(_) => step := Write(i);
    case Overshot => step := CancelOnOvershoot(i);
    case Retracting => step := Subtract(i);
  }

  // ----- when a search is cancelled, and what that does -----

  ghost predicate TookBack(s: State, j: nat) {
    j < |s.pieces| && (s.pieces[j] == Retracting || s.pieces[j] == Retracted)
  }

  ghost predicate Erred(s: State, j: nat) {
    j < |s.pieces| && (s.pieces[j] == Faulting || s.pieces[j] == Faulted)
  }

  // A worker that cancels after an error, or after an overshoot.
  ghost predicate Cancels(s: State, j: nat) {
    j < |s.pieces| && (s.pieces[j] == Faulted || TookBack(s, j))
  }

  // The flags tell exactly what happened: an error was sent, the caller stopped the search, somebody cancelled it.
  ghost predicate FlagsTell(steps: seq<Step>, s: State) {
    && (s.errorSent <==> exists j: nat :: Erred(s, j))
    && (s.stopped <==> Stop in steps)
    && (s.cancelled <==> s.stopped || exists j: nat :: Cancels(s, j))
  }

  // A step changes one piece at most.
  lemma OthersStay(c: Search, s: State, step: Step, j: nat)
    requires c.Valid() && Enabled(c, s, step) && j < |s.pieces|
    ensures var t := Apply(c, s, step);
      |t.pieces| == |s.pieces| && (step.Stop? || j != step.i ==> t.pieces[j] == s.pieces[j])
  {
  }

  lemma StepKeepsErred(c: Search, s: State, step: Step, j: nat)
    requires c.Valid() && Enabled(c, s, step) && j < |s.pieces|
    ensures var t := Apply(c, s, step);
      && (Erred(t, j) <==> Erred(s, j) || (step.SendError? && step.i == j))
      && (Cancels(t, j) <==> Cancels(s, j) || ((step.CancelOnError? || step.CancelOnOvershoot?) && step.i == j))
  {
    OthersStay(c, s, step, j);
  }

  lemma StepTells(c: Search, front: seq<Step>, s: State, step: Step)
    requires c.Valid() && FlagsTell(front, s) && Enabled(c, s, step)
    ensures FlagsTell(front + [step], Apply(c, s, step))
  {
    var t := Apply(c, s, step);
    forall j: nat | j < |s.pieces|
      ensures Erred(t, j) <==> Erred(s, j) || (step.SendError? && step.i == j)
      ensures Cancels(t, j) <==> Cancels(s, j) || ((step.CancelOnError? || step.CancelOnOvershoot?) && step.i == j)
    {
      StepKeepsErred(c, s, step, j);
    }
    assert |t.pieces| == |s.pieces|;
    if step.SendError? {
      assert Erred(t, step.i);
    }
    if step.CancelOnError? || step.CancelOnOvershoot? {
      assert Cancels(t, step.i);
    }
  }

  // Over every run the search is cancelled exactly when the caller stopped it or a worker cancelled it, after an
  // error or an overshoot.
  lemma {:induction false} CancelledIff(c: Search, steps: seq<Step>, s: State)
    requires c.Valid() && Leads(c, steps, s)
    ensures FlagsTell(steps, s)
  {
    if steps != [] {
      var front, last := steps[..|steps| - 1], steps[|steps| - 1];
      var before :| Leads(c, front, before) && Enabled(c, before, last) && s == Apply(c, before, last);
      CancelledIff(c, front, before);
      StepTells(c, front, before, last);
      assert front + [last] == steps;
    }
  }

  // Without an error or an outside stop, only a worker that overshot cancels.
  lemma CancelledByOvershoot(c: Search, steps: seq<Step>, s: State) returns (j: nat)
    requires c.Valid() && Leads(c, steps, s) && s.cancelled && !s.stopped && !s.errorSent
    ensures TookBack(s, j)
  {
    CancelledIff(c, steps, s);
    j :| Cancels(s, j);
    assert !Erred(s, j);
  }

  // The states that more steps lead to.
  ghost predicate GoesOn(c: Search, s: State, more: seq<Step>, t: State)
    requires c.Valid()
    decreases |more|
  {
    if more == [] then t == s else Enabled(c, s, more[0]) && GoesOn(c, Apply(c, s, more[0]), more[1..], t)
  }

  // Once a search is cancelled it stays so, and no further node is taken up.
  lemma {:induction false} NothingTaken(c: Search, s: State, more: seq<Step>, t: State, i: nat)
    requires c.Valid() && GoesOn(c, s, more, t) && s.cancelled && i < |s.pieces|
    ensures t.cancelled && |t.pieces| == |s.pieces| && (s.pieces[i] == Waiting <==> t.pieces[i] == Waiting)
    decreases |more|
  {
    if more != [] {
      OthersStay(c, s, more[0], i);
      NothingTaken(c, Apply(c, s, more[0]), more[1..], t, i);
    }
  }
}
