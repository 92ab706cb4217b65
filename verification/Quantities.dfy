/** Kubernetes resource quantities: a non-negative number of nano-units. */
module Quantities {

  type Quantity = nat

  // Both readings of a quantity round up.
  function MilliValue(q: Quantity): nat {
    (q + 999_999) / 1_000_000
  }

  function Value(q: Quantity): nat {
    (q + 999_999_999) / 1_000_000_000
  }

  lemma RoundsUp(q: Quantity)
    ensures 1_000_000 * (MilliValue(q) - 1) < q <= 1_000_000 * MilliValue(q)
    ensures 1_000_000_000 * (Value(q) - 1) < q <= 1_000_000_000 * Value(q)
  {
  }
}
