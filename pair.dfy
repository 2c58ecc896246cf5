/** The generic pair of `datastructure.Pair`: two public components with no constraint
    between them (equal values are allowed). */
module Pairs {

  datatype Pair<F, S> = Pair(first: F, second: S)

  /** `Pair.of`: builds the pair holding exactly the two given components. */
  function Of<F, S>(first: F, second: S): (p: Pair<F, S>)
    ensures p.first == first && p.second == second
  {
    Pair(first, second)
  }
}
