/** `algorithms.summary.AlgoSummary` and `algorithms.sorting.SortingSummary`: immutable
    snapshots of an algorithm's values, taken when the summary is built. They are values
    here, so nothing done to the algorithm afterwards reaches them. A sorting summary keeps
    the contents of the `before` array it was given; `setArray` replaces that array instead of
    writing to it, so the contents are what the summary sees for its whole life. */
module Summaries {
  import opened Wrappers
  import opened SortingStates
  import opened SortingAlgorithms

  datatype AlgoSummary = AlgoSummary(
    name: string,
    typeName: string,
    totalTime: real,
    totalIterations: int)

  datatype SortingSummary = SortingSummary(
    base: AlgoSummary,
    arrayLength: int,
    before: seq<int>,
    totalComparisons: int,
    totalSwaps: int)

  /** One "label: value" item of a rendered summary. */
  datatype Field = Field(title: string, value: string)

  /** `%f` of a `double`: `NaN` prints as "NaN"; the digits of any other value are what
      `fixed` makes of it. */
  function LevelText(l: Level, fixed: real -> string): string {
    match l
    case NaN => "NaN"
    case Fraction(v) => fixed(v)
  }

  /** The items of `SortingSummary.toString`, in the order of its format string. */
  function Fields(s: SortingSummary, fixed: real -> string): seq<Field> {
    [ Field("Type of algorithm", s.base.typeName),
      Field("Name of algorithm", s.base.name),
      Field("Length of array", IntToString(s.arrayLength)),
      Field("Level of sorting before", LevelText(Unsortedness(s.before), fixed)),
      Field("Total time elapsed", fixed(s.base.totalTime)),
      Field("Total number of iterations", IntToString(s.base.totalIterations)),
      Field("Total number of comparisons", IntToString(s.totalComparisons)),
      Field("Total number of swaps", IntToString(s.totalSwaps)) ]
  }

  /** One item as "label: value". */
  function Item(f: Field): string {
    f.title + ": " + f.value
  }

  /** The items joined and separated by ", ". */
  function Render(fs: seq<Field>): string {
    if fs == [] then ""
    else if |fs| == 1 then Item(fs[0])
    else Render(fs[..|fs| - 1]) + ", " + Item(fs[|fs| - 1])
  }

  /** `SortingSummary.toString`. */
  function ToString(s: SortingSummary, fixed: real -> string): string {
    Render(Fields(s, fixed))
  }

  /** The labels in the fixed order: type, name, array length, level of sorting before,
      total time, iterations, comparisons, swaps. */
  const Labels: seq<string> := [
    "Type of algorithm", "Name of algorithm", "Length of array", "Level of sorting before",
    "Total time elapsed", "Total number of iterations", "Total number of comparisons",
    "Total number of swaps"]

  /** The items come in the fixed order of `Labels`. */
  lemma FieldOrder(s: SortingSummary, fixed: real -> string)
    ensures |Fields(s, fixed)| == |Labels|
    ensures forall k :: 0 <= k < |Labels| ==> Fields(s, fixed)[k].title == Labels[k]
  {
  }

  /** Each item carries its own value: the strings as they are, the integers as `%d`
      renders them (which reads back, by `IntToStringRoundTrip`), the level of sorting as
      the level of unsortedness of `before`. */
  lemma FieldValues(s: SortingSummary, fixed: real -> string)
    ensures |Fields(s, fixed)| == 8
    ensures Fields(s, fixed)[0].value == s.base.typeName
    ensures Fields(s, fixed)[1].value == s.base.name
    ensures Fields(s, fixed)[2].value == IntToString(s.arrayLength)
    ensures Fields(s, fixed)[3].value == LevelText(Unsortedness(s.before), fixed)
    ensures Fields(s, fixed)[4].value == fixed(s.base.totalTime)
    ensures Fields(s, fixed)[5].value == IntToString(s.base.totalIterations)
    ensures Fields(s, fixed)[6].value == IntToString(s.totalComparisons)
    ensures Fields(s, fixed)[7].value == IntToString(s.totalSwaps)
  {
  }

  /** The rendering of the first `k` items, then ", ", begins the rendering of all of them. */
  lemma {:induction false} RenderPrefix(fs: seq<Field>, k: nat)
    requires 1 <= k < |fs|
    ensures StartsWith(Render(fs), Render(fs[..k]) + ", ")
    decreases |fs|
  {
    var init := fs[..|fs| - 1];
    var last := fs[|fs| - 1];
    var tail := Item(last);
    assert Render(fs) == Render(init) + ", " + tail;
    if k == |fs| - 1 {
      assert fs[..k] == init;
      Affixes(Render(init) + ", ", tail);
    } else {
      RenderPrefix(init, k);
      assert init[..k] == fs[..k];
      var p := Render(fs[..k]) + ", ";
      assert Render(init)[..|p|] == p;
      assert (Render(init) + ", " + tail)[..|p|] == Render(init)[..|p|];
    }
  }

  /** A rendered summary begins with the type and then the name of the algorithm. */
  lemma ToStringBeginsWithTypeAndName(s: SortingSummary, fixed: real -> string)
    ensures StartsWith(ToString(s, fixed),
                       Item(Field("Type of algorithm", s.base.typeName)) + ", "
                       + Item(Field("Name of algorithm", s.base.name)) + ", ")
  {
    var fs := Fields(s, fixed);
    var two := fs[..2];
    RenderPrefix(fs, 2);
    assert two[..1] == [fs[0]];
    assert Render(two) == Item(fs[0]) + ", " + Item(fs[1]);
  }
}
