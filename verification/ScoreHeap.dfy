/** nodeScoreHeap: container/heap's Init and Pop over an array of node scores, largest total first.
    The array methods are proved equal to functions on sequences; the lemmas say what the
    functions mean: drained completely, the heap yields a non-increasing permutation. */
module ScoreHeap {

  datatype PluginScore = PluginScore(plugin: string, score: int)
  datatype NodePluginScores = NodePluginScores(name: string, scores: seq<PluginScore>, total: int)
  type Scores = seq<NodePluginScores>

  ghost function Swap(s: Scores, i: nat, j: nat): (r: Scores)
    requires i < |s| && j < |s|
    ensures |r| == |s|
  {
    s[i := s[j]][j := s[i]]
  }

  ghost function LargerChild(s: Scores, i: nat, n: nat): (j: nat)
    requires 2 * i + 1 < n <= |s|
    ensures j < n && i < j && (j - 1) / 2 == i
    ensures forall c :: i < c < n && (c - 1) / 2 == i ==> s[c].total <= s[j].total
  {
    if 2 * i + 2 < n && s[2 * i + 2].total > s[2 * i + 1].total then 2 * i + 2 else 2 * i + 1
  }

  // heap.down, on the first n entries.
  ghost function Down(s: Scores, i: nat, n: nat): (r: Scores)
    requires n <= |s|
    ensures |r| == |s|
    decreases n - i
  {
    if 2 * i + 1 >= n then s
    else
      var j := LargerChild(s, i, n);
      if s[j].total > s[i].total then Down(Swap(s, i, j), j, n) else s
  }

  method SiftDown(a: array<NodePluginScores>, start: nat, n: nat)
    requires n <= a.Length
    modifies a
    ensures a[..] == Down(old(a[..]), start, n)
  {
    ghost var result := Down(a[..], start, n);
    var i := start;
    while 2 * i + 1 < n
      invariant 0 <= i
      invariant Down(a[..], i, n) == result
      decreases n - i
    {
      ghost var before := a[..];
      var j := 2 * i + 1;
      if j + 1 < n && a[j + 1].total > a[j].total {
        j := j + 1;
      }
      assert j == LargerChild(before, i, n);
      if a[j].total <= a[i].total {
        return;
      }
      a[i], a[j] := a[j], a[i];
      assert a[..] == Swap(before, i, j);
      i := j;
    }
  }

  // heap.Init after the positions k..|s| have been sifted already.
  ghost function Heapify(s: Scores, k: nat): (r: Scores)
    ensures |r| == |s|
    decreases k
  {
    if k == 0 then s else Heapify(Down(s, k - 1, |s|), k - 1)
  }

  method Init(a: array<NodePluginScores>)
    modifies a
    ensures a[..] == Heapify(old(a[..]), a.Length / 2)
  {
    ghost var result := Heapify(a[..], a.Length / 2);
    var k := a.Length / 2;
    while k > 0
      invariant 0 <= k
      invariant Heapify(a[..], k) == result
    {
      SiftDown(a, k - 1, a.Length);
      k := k - 1;
    }
  }

  // heap.Pop: the removed entry is left just past the n - 1 entries that stay in the heap.
  ghost function PopStep(s: Scores, n: nat): (r: Scores)
    requires 0 < n <= |s|
    ensures |r| == |s|
  {
    Down(Swap(s, 0, n - 1), 0, n - 1)
  }

  method Pop(a: array<NodePluginScores>, n: nat) returns (x: NodePluginScores)
    requires 0 < n <= a.Length
    modifies a
    ensures a[..] == PopStep(old(a[..]), n) && x == old(a[0])
  {
    a[0], a[n - 1] := a[n - 1], a[0];
    assert a[..] == Swap(old(a[..]), 0, n - 1);
    SiftDown(a, 0, n - 1);
    PopStepTail(old(a[..]), n);
    x := a[n - 1];
  }

  // Everything the heap's first n entries yield, in pop order.
  ghost function Drain(s: Scores, n: nat): (r: Scores)
    requires n <= |s|
    ensures |r| == n
    decreases n
  {
    if n == 0 then [] else [s[0]] + Drain(PopStep(s, n), n - 1)
  }

  ghost function PopOrder(list: Scores): (r: Scores)
    ensures |r| == |list|
  {
    Drain(Heapify(list, |list| / 2), |list|)
  }

  // ----- what the functions mean -----

  lemma SwapKeeps(s: Scores, i: nat, j: nat)
    requires i < |s| && j < |s|
    ensures multiset(Swap(s, i, j)) == multiset(s)
  {
  }

  lemma {:induction false} DownKeeps(s: Scores, i: nat, n: nat)
    requires n <= |s|
    ensures multiset(Down(s, i, n)) == multiset(s)
    ensures Down(s, i, n)[n..] == s[n..]
    decreases n - i
  {
    if 2 * i + 1 < n {
      var j := LargerChild(s, i, n);
      if s[j].total > s[i].total {
        SwapKeeps(s, i, j);
        DownKeeps(Swap(s, i, j), j, n);
        assert Swap(s, i, j)[n..] == s[n..];
      }
    }
  }

  lemma {:induction false} HeapifyKeeps(s: Scores, k: nat)
    ensures multiset(Heapify(s, k)) == multiset(s)
    decreases k
  {
    if k > 0 {
      DownKeeps(s, k - 1, |s|);
      HeapifyKeeps(Down(s, k - 1, |s|), k - 1);
    }
  }

  lemma SplitEntries(s: Scores, n: nat)
    requires n <= |s|
    ensures multiset(s) == multiset(s[..n]) + multiset(s[n..])
  {
    assert s == s[..n] + s[n..];
  }

  // A pop leaves the root just past the shrunken heap ...
  lemma PopStepTail(s: Scores, n: nat)
    requires 0 < n <= |s|
    ensures PopStep(s, n)[n - 1..] == [s[0]] + s[n..]
  {
    DownKeeps(Swap(s, 0, n - 1), 0, n - 1);
    assert Swap(s, 0, n - 1)[n - 1..] == [s[0]] + s[n..];
  }

  lemma SuffixMoved(s: Scores, r: Scores, n: nat)
    requires 0 < n <= |s| == |r| && multiset(r) == multiset(s)
    requires r[n - 1..] == [s[0]] + s[n..]
    ensures multiset(s[..n]) == multiset{s[0]} + multiset(r[..n - 1])
  {
    SplitEntries(s, n);
    SplitEntries(r, n - 1);
    var front, tail, shrunk := multiset(s[..n]), multiset(s[n..]), multiset(r[..n - 1]);
    assert multiset([s[0]] + s[n..]) == multiset{s[0]} + tail;
    assert front + tail == shrunk + (multiset{s[0]} + tail);
    forall x ensures front[x] == (multiset{s[0]} + shrunk)[x] {
      assert (front + tail)[x] == (shrunk + (multiset{s[0]} + tail))[x];
    }
  }

  // ... and keeps every entry.
  lemma PopStepKeeps(s: Scores, n: nat)
    requires 0 < n <= |s|
    ensures multiset(s[..n]) == multiset{s[0]} + multiset(PopStep(s, n)[..n - 1])
  {
    PopStepTail(s, n);
    SwapKeeps(s, 0, n - 1);
    DownKeeps(Swap(s, 0, n - 1), 0, n - 1);
    SuffixMoved(s, PopStep(s, n), n);
  }

  // No child of p among the first n entries has a larger total than bound.
  ghost predicate ChildrenWithin(s: Scores, p: nat, n: nat, bound: int)
    requires n <= |s|
  {
    (2 * p + 1 < n ==> s[2 * p + 1].total <= bound) && (2 * p + 2 < n ==> s[2 * p + 2].total <= bound)
  }

  ghost predicate Dominates(s: Scores, p: nat, n: nat)
    requires n <= |s|
  {
    p < n ==> ChildrenWithin(s, p, n, s[p].total)
  }

  // From position lo on, every parent dominates its children.
  ghost predicate HeapFrom(s: Scores, lo: nat, n: nat)
    requires n <= |s|
  {
    forall p: nat :: lo <= p ==> Dominates(s, p, n)
  }

  // The same, except that the entry at i may be too small; its parent then dominates i's children.
  ghost predicate HeapButFor(s: Scores, lo: nat, i: nat, n: nat)
    requires n <= |s|
  {
    && (forall p: nat :: lo <= p && p != i ==> Dominates(s, p, n))
    && (lo < i < n && lo <= (i - 1) / 2 ==> ChildrenWithin(s, i, n, s[(i - 1) / 2].total))
  }

  lemma {:induction false} SiftOnce(s: Scores, lo: nat, i: nat, n: nat)
    requires n <= |s| && lo <= i && 2 * i + 1 < n && HeapButFor(s, lo, i, n)
    requires s[LargerChild(s, i, n)].total > s[i].total
    ensures HeapButFor(Swap(s, i, LargerChild(s, i, n)), lo, LargerChild(s, i, n), n)
  {
    var j := LargerChild(s, i, n);
    var t := Swap(s, i, j);
    assert Dominates(s, j, n);
    forall p: nat | lo <= p && p != j ensures Dominates(t, p, n) {
      assert p != i ==> Dominates(s, p, n);
    }
  }

  lemma {:induction false} DownRestores(s: Scores, lo: nat, i: nat, n: nat)
    requires n <= |s| && lo <= i && HeapButFor(s, lo, i, n)
    ensures HeapFrom(Down(s, i, n), lo, n)
    decreases n - i
  {
    if 2 * i + 1 >= n {
      assert Dominates(s, i, n);
    } else {
      var j := LargerChild(s, i, n);
      if s[j].total > s[i].total {
        SiftOnce(s, lo, i, n);
        DownRestores(Swap(s, i, j), lo, j, n);
      } else {
        assert Dominates(s, i, n);
      }
    }
  }

  // Equal totals are never exchanged: an entry that no child beats stays, and of two equal children the left one rises.
  lemma SiftKeepsTies(s: Scores, i: nat, n: nat)
    requires n <= |s|
    ensures ChildrenWithin(s, i, n, if i < n then s[i].total else 0) ==> Down(s, i, n) == s
    ensures 2 * i + 2 < n && s[2 * i + 1].total == s[2 * i + 2].total > s[i].total ==>
      Down(s, i, n) == Down(s[i := s[2 * i + 1]][2 * i + 1 := s[i]], 2 * i + 1, n)
  {
  }

  // Three nodes with one total: the first is popped, then the last, then the second.
  lemma EqualsInOrder(a: NodePluginScores, b: NodePluginScores, c: NodePluginScores)
    requires a.total == b.total == c.total
    ensures PopOrder([a, b, c]) == [a, c, b]
  {
    var s := [a, b, c];
    SiftKeepsTies(s, 0, 3);
    assert Heapify(s, 1) == Heapify(Down(s, 0, 3), 0) == s;
    var t := Swap(s, 0, 2);
    assert t == [c, b, a];
    SiftKeepsTies(t, 0, 2);
    assert PopStep(s, 3) == t;
    var u := Swap(t, 0, 1);
    assert u == [b, c, a];
    SiftKeepsTies(u, 0, 1);
    assert PopStep(t, 2) == u;
    assert Drain(u, 1) == [b] + Drain(PopStep(u, 1), 0);
    assert Drain(t, 2) == [c] + Drain(u, 1);
    assert Drain(s, 3) == [a] + Drain(t, 2);
  }

  lemma {:induction false} HeapifyBuilds(s: Scores, k: nat)
    requires HeapFrom(s, k, |s|)
    ensures HeapFrom(Heapify(s, k), 0, |s|)
    decreases k
  {
    if k > 0 {
      DownRestores(s, k - 1, k - 1, |s|);
      HeapifyBuilds(Down(s, k - 1, |s|), k - 1);
    }
  }

  lemma {:induction false} RootIsLargest(s: Scores, n: nat, k: nat)
    requires k < n <= |s| && HeapFrom(s, 0, n)
    ensures s[k].total <= s[0].total
  {
    if k > 0 {
      RootIsLargest(s, n, (k - 1) / 2);
      assert Dominates(s, (k - 1) / 2, n);
    }
  }

  lemma SwapOutRoot(s: Scores, n: nat)
    requires 0 < n <= |s| && HeapFrom(s, 0, n)
    ensures HeapButFor(Swap(s, 0, n - 1), 0, 0, n - 1)
  {
    var t, m: nat := Swap(s, 0, n - 1), n - 1;
    forall p: nat | p != 0 ensures Dominates(t, p, m) {
      assert Dominates(s, p, n);
    }
  }

  lemma PopKeepsHeap(s: Scores, n: nat)
    requires 0 < n <= |s| && HeapFrom(s, 0, n)
    ensures HeapFrom(PopStep(s, n), 0, n - 1)
  {
    SwapOutRoot(s, n);
    DownRestores(Swap(s, 0, n - 1), 0, 0, n - 1);
  }

  ghost predicate NonIncreasing(s: Scores) {
    forall i, j :: 0 <= i <= j < |s| ==> s[j].total <= s[i].total
  }

  lemma {:induction false} DrainSorts(s: Scores, n: nat)
    requires n <= |s| && HeapFrom(s, 0, n)
    ensures multiset(Drain(s, n)) == multiset(s[..n])
    ensures NonIncreasing(Drain(s, n))
    decreases n
  {
    if n > 0 {
      PopKeepsHeap(s, n);
      PopStepKeeps(s, n);
      var rest := Drain(PopStep(s, n), n - 1);
      DrainSorts(PopStep(s, n), n - 1);
      forall j | 0 <= j < |rest| ensures rest[j].total <= s[0].total {
        assert rest[j] in multiset(rest) && rest[j] in multiset(s[..n]);
        var k :| 0 <= k < n && s[k] == rest[j];
        RootIsLargest(s, n, k);
      }
    }
  }

  // The pop order is the input, rearranged from the highest total to the lowest.
  lemma PopOrderSorts(list: Scores)
    ensures multiset(PopOrder(list)) == multiset(list)
    ensures NonIncreasing(PopOrder(list))
  {
    assert HeapFrom(list, |list| / 2, |list|);
    HeapifyBuilds(list, |list| / 2);
    HeapifyKeeps(list, |list| / 2);
    var h := Heapify(list, |list| / 2);
    DrainSorts(h, |list|);
    assert h[..|list|] == h;
  }
}
