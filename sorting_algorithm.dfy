/** The static parts of `algorithms.sorting.SortingAlgorithm`: copying an array (as its
    constructor, `setArray` and `getArrayCopy` do) and the level of unsortedness of an array.
    The instance state lives in the class `BubbleSort` of module `BubbleSorting`. */
module SortingAlgorithms {

  /** A fresh array with the same length and contents: `Arrays.copyOf(a, a.length)` and the
      `System.arraycopy` of `getArrayCopy`. Later writes to either array do not reach the
      other one. */
  method CopyOf(a: array<int>) returns (c: array<int>)
    ensures fresh(c)
    ensures c[..] == a[..]
  {
    c := new int[a.Length];
    var i := 0;
    while i < a.Length
      invariant 0 <= i <= a.Length
      invariant c[..i] == a[..i]
    {
      c[i] := a[i];
      i := i + 1;
    }
    assert c[..] == c[..a.Length];
    assert a[..] == a[..a.Length];
  }

  /** The `double` that `getUnsortednessOfArray` returns: `(double) sum / n` is the quotient
      when `n > 0`, and `0.0 / 0` is `NaN` for an empty array. */
  datatype Level = NaN | Fraction(value: real)

  /** The number of positions `i` with `s[i] == i + 1`. */
  function FixedPoints(s: seq<int>): (c: nat)
    ensures c <= |s|
  {
    if s == [] then 0
    else FixedPoints(s[..|s| - 1]) + (if s[|s| - 1] == |s| then 1 else 0)
  }

  /** The positions counted by `FixedPoints`, as a set. */
  function FixedPointSet(s: seq<int>): set<int> {
    set i | 0 <= i < |s| && s[i] == i + 1
  }

  /** The count is the size of the set of matching positions. */
  lemma {:induction false} FixedPointsCardinality(s: seq<int>)
    ensures FixedPoints(s) == |FixedPointSet(s)|
  {
    if s != [] {
      var u := s[..|s| - 1];
      FixedPointsCardinality(u);
      if s[|s| - 1] == |s| {
        assert FixedPointSet(s) == FixedPointSet(u) + {|s| - 1};
      } else {
        assert FixedPointSet(s) == FixedPointSet(u);
      }
    }
  }

  /** The level of unsortedness: matching positions over the length. */
  function Unsortedness(s: seq<int>): Level {
    if |s| == 0 then NaN else Fraction(FixedPoints(s) as real / |s| as real)
  }

  /** `getUnsortednessOfArray`: counts the matching positions in one pass. */
  method GetUnsortednessOfArray(a: array<int>) returns (r: Level)
    ensures r == Unsortedness(a[..])
  {
    var n := a.Length;
    var sum := 0;
    var i := 0;
    while i < n
      invariant 0 <= i <= n
      invariant sum == FixedPoints(a[..i])
    {
      assert a[..i + 1][..i] == a[..i];
      if a[i] == i + 1 {
        sum := sum + 1;
      }
      i := i + 1;
    }
    assert a[..] == a[..n];
    if n == 0 {
      r := NaN;
    } else {
      r := Fraction(sum as real / n as real);
    }
  }

  /** The level is `NaN` exactly for the empty array and otherwise lies in [0, 1]. */
  lemma UnsortednessBounds(s: seq<int>)
    ensures Unsortedness(s) == NaN <==> |s| == 0
    ensures Unsortedness(s).Fraction? ==> 0.0 <= Unsortedness(s).value <= 1.0
  {
    if |s| > 0 {
      var c, n := FixedPoints(s) as real, |s| as real;
      assert c <= n;
      assert c / n <= n / n;
    }
  }

  /** The array 1, 2, ..., n. */
  function Ascending(n: nat): (s: seq<int>)
    ensures |s| == n && forall i :: 0 <= i < n ==> s[i] == i + 1
  {
    if n == 0 then [] else Ascending(n - 1) + [n]
  }

  lemma {:induction false} AscendingFixedPoints(n: nat)
    ensures FixedPoints(Ascending(n)) == n
  {
    if n > 0 {
      var s := Ascending(n);
      assert s[..n - 1] == Ascending(n - 1);
      AscendingFixedPoints(n - 1);
    }
  }

  /** Every position of 1, 2, ..., n matches, so its level is 1. */
  lemma AscendingFullyMatches(n: nat)
    requires n > 0
    ensures Unsortedness(Ascending(n)) == Fraction(1.0)
  {
    AscendingFixedPoints(n);
    DivideBySelf(n as real);
  }

  lemma DivideBySelf(x: real)
    requires x > 0.0
    ensures x / x == 1.0
  {
  }

  /** In 5, 4, 3, 2, 1 only the middle position matches, so its level is 1/5. */
  lemma ReversedFive()
    ensures FixedPointSet([5, 4, 3, 2, 1]) == {2}
    ensures Unsortedness([5, 4, 3, 2, 1]) == Fraction(1.0 / 5.0)
  {
    var s := [5, 4, 3, 2, 1];
    assert FixedPoints([5]) == 0 by { assert [5][..0] == []; }
    assert FixedPoints([5, 4]) == 0 by { assert [5, 4][..1] == [5]; }
    assert FixedPoints([5, 4, 3]) == 1 by { assert [5, 4, 3][..2] == [5, 4]; }
    assert FixedPoints([5, 4, 3, 2]) == 1 by { assert [5, 4, 3, 2][..3] == [5, 4, 3]; }
    assert FixedPoints(s) == 1 by { assert s[..4] == [5, 4, 3, 2]; }
    FixedPointsCardinality(s);
    assert 2 in FixedPointSet(s);
  }
}
