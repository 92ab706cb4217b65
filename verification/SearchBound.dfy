/** numFeasibleNodesToFind: how many feasible nodes end the search, in int32 arithmetic. */
module SearchBound {
  import opened Options
  import opened GoInt

  const MIN_FEASIBLE_NODES_TO_FIND := 100
  const MIN_FEASIBLE_NODES_PERCENTAGE_TO_FIND := 5

  // The percentage used for n nodes: the profile's, else the scheduler's, else an adaptive one.
  function Percentage(profile: Option<int>, global: int, n: int): int {
    var chosen := if profile.Some? then profile.value else global;
    if chosen != 0 then chosen
    else if 50 - Quotient(n, 125) < MIN_FEASIBLE_NODES_PERCENTAGE_TO_FIND then MIN_FEASIBLE_NODES_PERCENTAGE_TO_FIND
    else 50 - Quotient(n, 125)
  }

  function NumFeasibleNodesToFind(profile: Option<int>, global: int, n: int): int {
    if n < MIN_FEASIBLE_NODES_TO_FIND then n
    else
      var found := Quotient(Wrap32(n * Percentage(profile, global, n)), 100);
      if found < MIN_FEASIBLE_NODES_TO_FIND then MIN_FEASIBLE_NODES_TO_FIND else found
  }

  // findNodesThatPassFilters looks for a single node when nothing will score or filter the result.
  function NodesToFind(profile: Option<int>, global: int, n: int, hasExtenderFilters: bool, hasScoring: bool): int {
    if !hasExtenderFilters && !hasScoring then 1 else NumFeasibleNodesToFind(profile, global, n)
  }

  ghost predicate Configured(profile: Option<int>, global: int) {
    if profile.Some? then 0 <= profile.value <= 100 else 0 <= global <= 100
  }

  lemma PercentageRange(profile: Option<int>, global: int, n: int)
    requires Configured(profile, global) && 0 <= n
    ensures 0 < Percentage(profile, global, n) <= 100
  {
  }

  lemma ProductBound(n: int, p: int)
    requires 0 <= n && 0 < p <= 100
    ensures 0 <= n * p <= n * 100
  {
  }

  // The bound lies between min(n, 100) and n for every int32 node count, even where the product wraps.
  lemma BoundRange(profile: Option<int>, global: int, n: int)
    requires Configured(profile, global) && 0 <= n <= MAX_INT32
    ensures var want := NumFeasibleNodesToFind(profile, global, n);
      (if n < 100 then n else 100) <= want <= n
  {
    PercentageRange(profile, global, n);
    ProductBound(n, Percentage(profile, global, n));
    WrapNeverAbove(n * Percentage(profile, global, n));
  }

  // What findNodesThatPassFilters looks for is at least one node and at most all of them.
  lemma NodesToFindRange(profile: Option<int>, global: int, n: int, hasExtenderFilters: bool, hasScoring: bool)
    requires Configured(profile, global) && 1 <= n <= MAX_INT32
    ensures 1 <= NodesToFind(profile, global, n, hasExtenderFilters, hasScoring) <= n
  {
    BoundRange(profile, global, n);
  }

  // The bound as intended, without a machine word.
  function IdealBound(n: int, percentage: int): int {
    if n < 100 then n else if n * percentage / 100 < 100 then 100 else n * percentage / 100
  }

  // The percentage the configuration asks for: the profile's own, else the global one, and for a zero
  // 50 percent less one for every 125 nodes, but at least 5.
  ghost predicate AsksFor(profile: Option<int>, global: int, n: int, p: int) {
    var zero := profile == Some(0) || (profile == None && global == 0);
    && (profile.Some? && profile.value != 0 ==> p == profile.value)
    && (profile == None && global != 0 ==> p == global)
    && (zero && n < 5750 ==> p == 50 - n / 125)
    && (zero && n >= 5750 ==> p == 5)
  }

  lemma PercentageIs(profile: Option<int>, global: int, n: int, p: int)
    requires Configured(profile, global) && 0 <= n && AsksFor(profile, global, n, p)
    ensures Percentage(profile, global, n) == p && 0 < p <= 100
  {
  }

  // The intended bound is computed exactly when the product fits an int32 ...
  lemma BoundIsIdeal(profile: Option<int>, global: int, n: int, p: int)
    requires Configured(profile, global) && 100 <= n <= MAX_INT32 && AsksFor(profile, global, n, p)
    ensures NumFeasibleNodesToFind(profile, global, n) == IdealBound(n, p) <==> n * p <= MAX_INT32
  {
    PercentageIs(profile, global, n, p);
    ProductBound(n, p);
    WrapNeverAbove(n * p);
    if n * p > MAX_INT32 {
      assert n * p < 0x8000_0000 + 100 ==> Wrap32(n * p) < 0;
    }
  }

  // ... which is the case up to 21474836 nodes; one node more with 100 percent and it is not.
  lemma BoundIsIdealUpTo(profile: Option<int>, global: int, n: int, p: int)
    requires Configured(profile, global) && 0 <= n <= 21474836 && AsksFor(profile, global, n, p)
    ensures NumFeasibleNodesToFind(profile, global, n) == IdealBound(n, p)
    ensures NumFeasibleNodesToFind(Some(100), global, 21474837) == 100 != IdealBound(21474837, 100)
  {
    if n >= 100 {
      PercentageIs(profile, global, n, p);
      ProductBound(n, p);
      BoundIsIdeal(profile, global, n, p);
    }
  }

  // So a set percentage of the nodes is looked for, the profile's before the global one, but never fewer than 100.
  lemma SetPercentage(p: int, global: int, n: int)
    requires 1 <= p <= 100 <= n <= 21474836
    ensures var bound := NumFeasibleNodesToFind(Some(p), global, n);
      bound == (if n * p / 100 < 100 then 100 else n * p / 100) && NumFeasibleNodesToFind(None, p, n) == bound
  {
    BoundIsIdealUpTo(Some(p), global, n, p);
    BoundIsIdealUpTo(None, p, n, p);
  }

  // Without one it is a share that falls with the number of nodes.
  lemma AdaptivePercentage(global: int, n: int)
    requires 100 <= n <= 21474836
    ensures var p := if 50 - n / 125 < 5 then 5 else 50 - n / 125;
      var bound := NumFeasibleNodesToFind(Some(0), global, n);
      bound == (if n * p / 100 < 100 then 100 else n * p / 100) && NumFeasibleNodesToFind(None, 0, n) == bound
  {
    var p := if 50 - n / 125 < 5 then 5 else 50 - n / 125;
    assert AsksFor(Some(0), global, n, p) && AsksFor(None, 0, n, p);
    PercentageIs(Some(0), global, n, p);
    PercentageIs(None, 0, n, p);
    ProductBound(n, p);
    WrapNeverAbove(n * p);
  }

  lemma Monotone(a: int, b: int, k: int)
    requires a <= b && 0 <= k
    ensures a * k <= b * k
  {
  }

  lemma Expand(q: int)
    ensures (125 * q + 124) * (50 - q) == 6200 + 6126 * q - 125 * (q * q)
  {
    assert (125 * q) * (50 - q) == 125 * (q * (50 - q)) == 125 * (50 * q - q * q);
  }

  lemma Parabola(q: int)
    ensures q * q >= 49 * q - 600
  {
    var d := q - 24;
    assert d * (d - 1) >= 0;
    assert q * q == (d + 24) * (d + 24) == d * d + 48 * d + 576;
  }

  // The adaptive bound peaks at 812 nodes, between 3000 and 3250 nodes.
  lemma AdaptivePeak(n: int, q: int)
    requires 0 <= q <= 45 && 125 * q <= n < 125 * (q + 1)
    ensures n * (50 - q) <= 81299
  {
    Monotone(n, 125 * q + 124, 50 - q);
    Expand(q);
    Parabola(q);
  }

  // In adaptive mode the search also stops after max(812, a twentieth of the nodes).
  lemma AdaptiveBound(profile: Option<int>, global: int, n: int)
    requires profile == Some(0) || (profile == None && global == 0)
    requires 100 <= n <= MAX_INT32
    ensures NumFeasibleNodesToFind(profile, global, n) <= if n / 20 < 812 then 812 else n / 20
  {
    var q := n / 125;
    if q <= 45 {
      AdaptivePeak(n, q);
      ProductBound(n, 50 - q);
      WrapNeverAbove(n * (50 - q));
    } else {
      WrapNeverAbove(n * 5);
    }
  }
}
