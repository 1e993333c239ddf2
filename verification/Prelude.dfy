/** Small definitions shared by every component of the gateway model. */
module Prelude {

  datatype Option<+T> = None | Some(value: T)

  function Min(a: int, b: int): int {
    if a <= b then a else b
  }

  function Max(a: int, b: int): int {
    if a >= b then a else b
  }

  /** Timestamps that never step back. */
  ghost predicate NonDecreasing(times: seq<int>) {
    forall i, j | 0 <= i <= j < |times| :: times[i] <= times[j]
  }
}
