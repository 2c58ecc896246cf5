/** The closed vocabulary of actions a sorting algorithm records: `SortingAction`. */
module SortingActions {

  /** HIGHLIGHT acts on one element, COMPARE and SWAP on two. */
  datatype SortingAction = Highlight | Compare | Swap

  /** Java's `ordinal()`: the position of the constant in the declaration. */
  function Ordinal(a: SortingAction): (r: nat)
    ensures r < 3
  {
    match a
    case Highlight => 0
    case Compare => 1
    case Swap => 2
  }

  /** Java's `values()`: every constant once, in declaration order. */
  function Values(): (vs: seq<SortingAction>)
    ensures |vs| == 3
    ensures forall a: SortingAction :: vs[Ordinal(a)] == a
    ensures forall i :: 0 <= i < |vs| ==> Ordinal(vs[i]) == i
  {
    [Highlight, Compare, Swap]
  }

  /** The constants are declared HIGHLIGHT, COMPARE, SWAP, so `compareTo` orders them so. */
  lemma DeclarationOrder()
    ensures Ordinal(Highlight) < Ordinal(Compare) < Ordinal(Swap)
  {
  }

  /** The number of array elements an action of this kind is about. */
  function Arity(a: SortingAction): nat {
    match a
    case Highlight => 1
    case Compare => 2
    case Swap => 2
  }
}
