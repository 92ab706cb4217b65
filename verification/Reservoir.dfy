/** The reservoir sampling inside selectHost, with rand.Intn as an arbitrary sequence of draws:
    draws[i] is what rand.Intn(i + 2) answered.  Uniformity is a statement about counting. */
module Reservoir {

  // rand.Intn(k) answers some number in [0, k); the k-th tied node is met with k == 2, 3, ...
  ghost predicate InRange(draws: seq<nat>) {
    forall i :: 0 <= i < |draws| ==> draws[i] < i + 2
  }

  // selectedIndex after the given draws: the last tied node whose draw was 0, else the first.
  ghost function Pick(draws: seq<nat>): (index: nat)
    ensures index <= |draws|
  {
    if draws == [] then 0
    else if draws[|draws| - 1] == 0 then |draws|
    else Pick(draws[..|draws| - 1])
  }

  // The tied node of the last draw that was 0 is picked, and the first one if none was.
  lemma {:induction false} PickMeaning(draws: seq<nat>)
    ensures var i := Pick(draws); i <= |draws| && (i > 0 ==> draws[i - 1] == 0) && forall j :: i <= j < |draws| ==> draws[j] != 0
  {
    if draws != [] && draws[|draws| - 1] != 0 {
      PickMeaning(draws[..|draws| - 1]);
    }
  }

  ghost function Factorial(n: nat): (f: nat)
    ensures f > 0
  {
    if n == 0 then 1 else n * Factorial(n - 1)
  }

  // Every draw sequence that m tied nodes can meet.
  ghost function AllDraws(m: nat): set<seq<nat>>
    requires m > 0
  {
    if m == 1 then {[]} else Extend(AllDraws(m - 1), 0, m)
  }

  // The sequences of base, each extended by every number in [lo, hi).
  ghost function Extend(base: set<seq<nat>>, lo: nat, hi: nat): set<seq<nat>>
    requires lo <= hi
  {
    if lo == hi then {} else Extend(base, lo, hi - 1) + Append(base, hi - 1)
  }

  ghost function Append(base: set<seq<nat>>, x: nat): set<seq<nat>> {
    set r | r in base :: r + [x]
  }

  lemma {:induction false} AppendSize(base: set<seq<nat>>, x: nat)
    ensures |Append(base, x)| == |base|
  {
    if base != {} {
      var r :| r in base;
      AppendSize(base - {r}, x);
      assert Append(base, x) == Append(base - {r}, x) + {r + [x]};
      forall q | q in base - {r} ensures q + [x] != r + [x] {
        assert (q + [x])[..|q|] == q && (r + [x])[..|r|] == r;
      }
    }
  }

  lemma InAppend(base: set<seq<nat>>, x: nat, d: seq<nat>)
    ensures d in Append(base, x) <==> d != [] && d[|d| - 1] == x && d[..|d| - 1] in base
  {
    if d in Append(base, x) {
      var r :| r in base && r + [x] == d;
      assert r == d[..|d| - 1];
    }
    if d != [] {
      assert d == d[..|d| - 1] + [d[|d| - 1]];
    }
  }

  lemma {:induction false} InExtend(base: set<seq<nat>>, lo: nat, hi: nat, d: seq<nat>)
    requires lo <= hi
    ensures d in Extend(base, lo, hi) <==> d != [] && lo <= d[|d| - 1] < hi && d[..|d| - 1] in base
    decreases hi
  {
    if lo < hi {
      InExtend(base, lo, hi - 1, d);
      InAppend(base, hi - 1, d);
    }
  }

  lemma ExtendIsDisjoint(base: set<seq<nat>>, lo: nat, x: nat)
    requires lo <= x
    ensures Extend(base, lo, x) !! Append(base, x)
  {
    forall d | d in Extend(base, lo, x) ensures d !in Append(base, x) {
      InExtend(base, lo, x, d);
      InAppend(base, x, d);
    }
  }

  lemma ExtendOne(base: set<seq<nat>>, lo: nat, hi: nat)
    requires lo < hi
    ensures |Extend(base, lo, hi)| == |Extend(base, lo, hi - 1)| + |base|
  {
    AppendSize(base, hi - 1);
    ExtendIsDisjoint(base, lo, hi - 1);
  }

  lemma Times(total: nat, before: nat, n: int, size: nat)
    requires total == before + size && before == (n - 1) * size
    ensures total == n * size
  {
  }

  lemma {:induction false} ExtendSize(base: set<seq<nat>>, lo: nat, hi: nat, n: nat)
    requires hi == lo + n
    ensures |Extend(base, lo, hi)| == n * |base|
  {
    if n > 0 {
      ExtendSize(base, lo, hi - 1, n - 1);
      ExtendOne(base, lo, hi);
      Times(|Extend(base, lo, hi)|, |Extend(base, lo, hi - 1)|, n, |base|);
    }
  }

  // AllDraws(m) is exactly the set of in-range sequences for m tied nodes, and there are m! of them.
  lemma {:induction false} AllDrawsMeaning(m: nat, d: seq<nat>)
    requires m > 0
    ensures d in AllDraws(m) <==> |d| == m - 1 && InRange(d)
  {
    if m > 1 {
      InExtend(AllDraws(m - 1), 0, m, d);
      if d != [] {
        AllDrawsMeaning(m - 1, d[..|d| - 1]);
        assert InRange(d) <==> InRange(d[..|d| - 1]) && d[|d| - 1] < |d| + 1;
      }
    }
  }

  lemma {:induction false} AllDrawsSize(m: nat)
    requires m > 0
    ensures |AllDraws(m)| == Factorial(m)
  {
    if m == 1 {
      assert Factorial(1) == 1 * Factorial(0);
    } else {
      AllDrawsSize(m - 1);
      ExtendSize(AllDraws(m - 1), 0, m, m);
    }
  }

  lemma FactorialStep(n: nat, size: nat, total: nat)
    requires n > 0 && size == Factorial(n - 1) && total == n * size
    ensures total == Factorial(n)
  {
  }

  ghost function Picking(m: nat, index: nat): set<seq<nat>>
    requires m > 0
  {
    set d | d in AllDraws(m) && Pick(d) == index
  }

  // The last of m tied nodes is picked when its draw is 0.
  lemma PickingLast(m: nat)
    requires m > 1
    ensures Picking(m, m - 1) == Append(AllDraws(m - 1), 0)
  {
    var picking, appended := Picking(m, m - 1), Append(AllDraws(m - 1), 0);
    forall d ensures d in picking <==> d in appended {
      InExtend(AllDraws(m - 1), 0, m, d);
      InAppend(AllDraws(m - 1), 0, d);
      AllDrawsMeaning(m, d);
    }
  }

  // An earlier one stays picked when the last draw is not 0.
  lemma PickingEarlier(m: nat, index: nat)
    requires index + 1 < m
    ensures Picking(m, index) == Extend(Picking(m - 1, index), 1, m)
  {
    forall d ensures d in Picking(m, index) <==> d in Extend(Picking(m - 1, index), 1, m) {
      InExtend(AllDraws(m - 1), 0, m, d);
      InExtend(Picking(m - 1, index), 1, m, d);
      AllDrawsMeaning(m, d);
    }
  }

  // Of the m! draw sequences, exactly (m-1)! pick each of the m tied nodes.
  lemma {:induction false} PickIsUniform(m: nat, index: nat)
    requires index < m
    ensures |Picking(m, index)| == Factorial(m - 1)
  {
    if m == 1 {
      assert Picking(1, 0) == {[]};
    } else if index == m - 1 {
      PickingLast(m);
      AppendSize(AllDraws(m - 1), 0);
      AllDrawsSize(m - 1);
    } else {
      PickingEarlier(m, index);
      PickIsUniform(m - 1, index);
      ExtendSize(Picking(m - 1, index), 1, m, m - 1);
      FactorialStep(m - 1, |Picking(m - 1, index)|, |Picking(m, index)|);
    }
  }

  ghost function PickingEarly(n: nat, m: nat, index: nat): set<seq<nat>>
    requires 0 < m <= n
  {
    set d | d in AllDraws(n) && |d| == n - 1 && Pick(d[..m - 1]) == index
  }

  lemma EarlyAll(m: nat, index: nat)
    requires index < m
    ensures PickingEarly(m, m, index) == Picking(m, index)
  {
    forall d ensures d in PickingEarly(m, m, index) <==> d in Picking(m, index) {
      AllDrawsMeaning(m, d);
      assert |d| == m - 1 ==> d[..m - 1] == d;
    }
  }

  lemma EarlyExtends(n: nat, m: nat, index: nat)
    requires index < m < n
    ensures PickingEarly(n, m, index) == Extend(PickingEarly(n - 1, m, index), 0, n)
  {
    var base := PickingEarly(n - 1, m, index);
    forall d ensures d in PickingEarly(n, m, index) <==> d in Extend(base, 0, n) {
      InExtend(AllDraws(n - 1), 0, n, d);
      InExtend(base, 0, n, d);
      AllDrawsMeaning(n, d);
      if d != [] {
        AllDrawsMeaning(n - 1, d[..|d| - 1]);
        assert |d| == n - 1 ==> d[..|d| - 1][..m - 1] == d[..m - 1];
      }
    }
  }

  // Draws beyond the tied nodes change nothing: each of m tied nodes is picked by one m-th of
  // the n! sequences of n - 1 draws.
  lemma {:induction false} EarlyPickIsUniform(n: nat, m: nat, index: nat)
    requires index < m <= n
    ensures m * |PickingEarly(n, m, index)| == Factorial(n)
  {
    if n == m {
      EarlyAll(m, index);
      PickIsUniform(m, index);
    } else {
      EarlyExtends(n, m, index);
      EarlyPickIsUniform(n - 1, m, index);
      ExtendSize(PickingEarly(n - 1, m, index), 0, n, n);
      Regroup(|PickingEarly(n, m, index)|, m, n, |PickingEarly(n - 1, m, index)|);
    }
  }

  lemma Regroup(total: nat, m: nat, n: nat, k: nat)
    requires total == n * k
    ensures m * total == n * (m * k)
  {
  }
}
