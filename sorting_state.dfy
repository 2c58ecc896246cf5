/** The payload of `algorithms.sorting.SortingState`: the fields that a sorting state adds
    to a `State`. A Java `null` is `None`. The arrays are snapshots that nobody writes after
    the state is built, so they are values here. A sorting state as a whole is a
    `State<SortingPayload>`; its id, time and iteration live in the `State` object. */
module SortingStates {
  import opened Wrappers
  import opened Pairs
  import opened SortingActions

  /** `Integer.MIN_VALUE`, the sentinel for `index` and `element` of two-element actions. */
  const IntMinValue: int := -0x8000_0000

  datatype SortingPayload = SortingPayload(
    before: Option<seq<int>>,
    after: Option<seq<int>>,
    index: int,
    element: int,
    indices: Option<Pair<int, int>>,
    elements: Option<Pair<int, int>>,
    action: SortingAction)

  /** `SortingState.state`: every argument is stored as given, with no check of bounds or
      distinctness; building a state never fails. */
  function StateOf(before: Option<seq<int>>, after: Option<seq<int>>, index: int, element: int,
                   indices: Option<Pair<int, int>>, elements: Option<Pair<int, int>>,
                   action: SortingAction): SortingPayload
  {
    SortingPayload(before, after, index, element, indices, elements, action)
  }

  /** `SortingState.highlight`. */
  function HighlightOf(before: seq<int>, index: int, element: int): SortingPayload {
    StateOf(Some(before), None, index, element, None, None, Highlight)
  }

  /** `SortingState.comparison`. */
  function ComparisonOf(before: seq<int>, indices: Pair<int, int>, elements: Pair<int, int>)
    : SortingPayload
  {
    StateOf(Some(before), None, IntMinValue, IntMinValue, Some(indices), Some(elements), Compare)
  }

  /** `SortingState.swap`. */
  function SwapOf(before: seq<int>, after: seq<int>, indices: Pair<int, int>,
                  elements: Pair<int, int>): SortingPayload
  {
    StateOf(Some(before), Some(after), IntMinValue, IntMinValue, Some(indices), Some(elements), Swap)
  }

  /** What each factory fills in: its own action and the fields that action uses. A highlight
      has one element and no second array and no pairs; a comparison has two elements and no
      second array; a swap has two elements and both arrays; the single-element fields of the
      two-element actions hold the sentinel. */
  lemma FactoryFields(before: seq<int>, after: seq<int>, index: int, element: int,
                      indices: Pair<int, int>, elements: Pair<int, int>)
    ensures var h := HighlightOf(before, index, element);
            h.action == Highlight && h.before == Some(before) && h.after == None
            && h.index == index && h.element == element && h.indices == None && h.elements == None
    ensures var c := ComparisonOf(before, indices, elements);
            c.action == Compare && c.before == Some(before) && c.after == None
            && c.index == IntMinValue && c.element == IntMinValue
            && c.indices == Some(indices) && c.elements == Some(elements)
    ensures var s := SwapOf(before, after, indices, elements);
            s.action == Swap && s.before == Some(before) && s.after == Some(after)
            && s.index == IntMinValue && s.element == IntMinValue
            && s.indices == Some(indices) && s.elements == Some(elements)
  {
  }

  /** The payload has the shape its action's arity calls for: both pairs are present exactly
      when the action is about two elements, and an action about one element carries no pair
      and no second array. */
  predicate FitsArity(p: SortingPayload) {
    (Arity(p.action) == 2 <==> p.indices.Some? && p.elements.Some?)
    && (Arity(p.action) == 1 ==> p.indices == None && p.elements == None && p.after == None)
  }

  /** Each of the three named factories builds a payload of the shape its action calls for. */
  lemma FactoriesFitArity(before: seq<int>, after: seq<int>, index: int, element: int,
                          indices: Pair<int, int>, elements: Pair<int, int>)
    ensures FitsArity(HighlightOf(before, index, element))
    ensures FitsArity(ComparisonOf(before, indices, elements))
    ensures FitsArity(SwapOf(before, after, indices, elements))
  {
  }

  /** The general `state` factory checks nothing: it builds a highlight that carries a pair
      of indices. */
  lemma StateOfUnchecked()
    ensures !FitsArity(StateOf(None, None, 0, 0, Some(Pair(0, 1)), None, Highlight))
  {
  }

  // ---------------------------------------------------------------------------------------
  // Rendering: `String.format("%d")`, `Arrays.toString` and `SortingState.toString`.

  predicate IsDigit(c: char) {
    '0' <= c <= '9'
  }

  function DigitChar(d: nat): (c: char)
    requires d < 10
  {
    (d + '0' as int) as char
  }

  /** The decimal digits of `n`, without leading zeros. */
  function NatToString(n: nat): (s: string)
    ensures |s| >= 1
    ensures forall k :: 0 <= k < |s| ==> IsDigit(s[k])
    ensures |s| > 1 ==> s[0] != '0'
  {
    if n < 10 then [DigitChar(n)] else NatToString(n / 10) + [DigitChar(n % 10)]
  }

  /** `%d`: an optional minus sign followed by the digits. */
  function IntToString(i: int): (s: string)
    ensures |s| >= 1
  {
    if i < 0 then "-" + NatToString(-i) else NatToString(i)
  }

  function DigitValue(c: char): (d: nat)
    requires IsDigit(c)
  {
    c as int - '0' as int
  }

  /** Reads back the value of a string of digits. */
  function ParseNat(s: string): nat
    requires |s| >= 1 && forall k :: 0 <= k < |s| ==> IsDigit(s[k])
  {
    if |s| == 1 then DigitValue(s[0])
    else ParseNat(s[..|s| - 1]) * 10 + DigitValue(s[|s| - 1])
  }

  /** Reads back `%d`. */
  function ParseInt(s: string): Option<int> {
    if |s| >= 2 && s[0] == '-' && forall k :: 1 <= k < |s| ==> IsDigit(s[k]) then
      var v: int := -(ParseNat(s[1..]) as int);
      Some(v)
    else if |s| >= 1 && forall k :: 0 <= k < |s| ==> IsDigit(s[k]) then
      var v: int := ParseNat(s);
      Some(v)
    else
      None
  }

  lemma {:induction false} ParseNatToString(n: nat)
    ensures ParseNat(NatToString(n)) == n
  {
    if n >= 10 {
      var s := NatToString(n);
      assert s[..|s| - 1] == NatToString(n / 10);
      ParseNatToString(n / 10);
    }
  }

  /** A string of digits reads back as its value. */
  lemma ParseDigits(d: string)
    requires |d| >= 1 && forall k :: 0 <= k < |d| ==> IsDigit(d[k])
    ensures ParseInt(d) == Some(ParseNat(d) as int)
  {
    assert d[0] != '-';
  }

  /** A minus sign followed by digits reads back as the negated value. */
  lemma ParseNegative(d: string)
    requires |d| >= 1 && forall k :: 0 <= k < |d| ==> IsDigit(d[k])
    ensures ParseInt("-" + d) == Some(-(ParseNat(d) as int))
  {
    var s := "-" + d;
    assert s[1..] == d;
    assert forall k :: 1 <= k < |s| ==> s[k] == d[k - 1];
  }

  /** `%d` loses nothing: the rendered number reads back as itself. */
  lemma IntToStringRoundTrip(i: int)
    ensures ParseInt(IntToString(i)) == Some(i)
  {
    if i < 0 {
      ParseNegative(NatToString(-i));
      ParseNatToString(-i);
    } else {
      ParseDigits(NatToString(i));
      ParseNatToString(i);
    }
  }

  /** The elements of `s` rendered and separated by ", ". */
  function JoinInts(s: seq<int>): string {
    if |s| == 0 then ""
    else if |s| == 1 then IntToString(s[0])
    else JoinInts(s[..|s| - 1]) + ", " + IntToString(s[|s| - 1])
  }

  /** `Arrays.toString(int[])`: "null", or the elements in brackets. */
  function ArrayToString(a: Option<seq<int>>): (s: string)
    ensures a == None ==> s == "null"
    ensures a != None ==> |s| >= 2 && s[0] == '[' && s[|s| - 1] == ']'
    ensures a == Some([]) ==> s == "[]"
    ensures forall x :: a == Some([x]) ==> s == "[" + IntToString(x) + "]"
  {
    match a
    case None => "null"
    case Some(xs) => "[" + JoinInts(xs) + "]"
  }

  /** `%d` never prints a comma. */
  lemma IntToStringNoComma(i: int)
    ensures forall k :: 0 <= k < |IntToString(i)| ==> IntToString(i)[k] != ','
  {
    var d := NatToString(if i < 0 then -i else i);
    assert forall k :: 0 <= k < |d| ==> IsDigit(d[k]);
  }

  /** The position of the last comma of `s`, or -1 when there is none. */
  function LastComma(s: string): (k: int)
    ensures -1 <= k < |s|
    ensures k >= 0 ==> s[k] == ','
  {
    if |s| == 0 then -1
    else if s[|s| - 1] == ',' then |s| - 1
    else LastComma(s[..|s| - 1])
  }

  /** Reads back a non-empty list of numbers separated by ", ", from its last item. */
  function ParseInts(s: string): Option<seq<int>>
    decreases |s|
  {
    var k := LastComma(s);
    if k < 0 then
      match ParseInt(s)
      case None => None
      case Some(v) => Some([v])
    else if k + 1 < |s| && s[k + 1] == ' ' then
      match ParseInts(s[..k])
      case None => None
      case Some(init) =>
        match ParseInt(s[k + 2..])
        case None => None
        case Some(v) => Some(init + [v])
    else
      None
  }

  /** Reads back `Arrays.toString(int[])`. */
  function ParseArray(s: string): Option<seq<int>> {
    if |s| >= 2 && s[0] == '[' && s[|s| - 1] == ']' then
      var inner := s[1..|s| - 1];
      if inner == "" then Some([]) else ParseInts(inner)
    else
      None
  }

  /** A string without commas has no last comma. */
  lemma {:induction false} LastCommaNone(v: string)
    requires forall k :: 0 <= k < |v| ==> v[k] != ','
    ensures LastComma(v) == -1
    decreases |v|
  {
    if |v| > 0 {
      LastCommaNone(v[..|v| - 1]);
    }
  }

  /** Behind ", " and a string without commas, the last comma is the separator's. */
  lemma {:induction false} LastCommaAfter(u: string, v: string)
    requires forall k :: 0 <= k < |v| ==> v[k] != ','
    ensures LastComma(u + ", " + v) == |u|
    decreases |v|
  {
    var s := u + ", " + v;
    if |v| == 0 {
      assert s[..|s| - 1] == u + ",";
    } else {
      assert s[..|s| - 1] == u + ", " + v[..|v| - 1];
      LastCommaAfter(u, v[..|v| - 1]);
    }
  }

  /** One more ", "-separated number extends what is read back by that number. */
  lemma ParseIntsSnoc(u: string, init: seq<int>, x: int)
    requires ParseInts(u) == Some(init)
    ensures ParseInts(u + ", " + IntToString(x)) == Some(init + [x])
  {
    var v := IntToString(x);
    var s := u + ", " + v;
    IntToStringNoComma(x);
    LastCommaAfter(u, v);
    assert s[..|u|] == u && s[|u|] == ',' && s[|u| + 1] == ' ';
    assert s[|u| + 2..] == v;
    IntToStringRoundTrip(x);
  }

  lemma SplitLast(xs: seq<int>)
    requires |xs| >= 1
    ensures xs[..|xs| - 1] + [xs[|xs| - 1]] == xs
  {
  }

  /** The items joined by `JoinInts` read back as themselves. */
  lemma {:induction false} JoinIntsRoundTrip(xs: seq<int>)
    requires |xs| >= 1
    ensures ParseInts(JoinInts(xs)) == Some(xs)
    decreases |xs|
  {
    var last := xs[|xs| - 1];
    if |xs| == 1 {
      IntToStringNoComma(last);
      IntToStringRoundTrip(last);
      LastCommaNone(IntToString(last));
      assert xs == [last];
    } else {
      var init := xs[..|xs| - 1];
      assert JoinInts(xs) == JoinInts(init) + ", " + IntToString(last);
      JoinIntsRoundTrip(init);
      ParseIntsSnoc(JoinInts(init), init, last);
      SplitLast(xs);
    }
  }

  /** `Arrays.toString` loses nothing: "null" reads back as null, and a bracketed list as
      the same elements in the same order. */
  lemma ArrayToStringRoundTrip(a: Option<seq<int>>)
    ensures ParseArray(ArrayToString(a)) == a
  {
    if a.Some? {
      var xs := a.value;
      var s := ArrayToString(a);
      assert s[1..|s| - 1] == JoinInts(xs);
      if xs != [] {
        JoinIntsRoundTrip(xs);
        assert JoinInts(xs) != "" by { assert |IntToString(xs[|xs| - 1])| >= 1; }
      }
    }
  }

  /** Why a rendering can fail: the `indices.first` or `elements.first` dereference of a
      two-element action whose pair is null. */
  datatype RenderError = NullPointer

  /** The fixed head of every rendering: "ID: <id>, Iteration: <iteration>, ". */
  function Header(id: int, iteration: int): string {
    "ID: " + IntToString(id) + ", Iteration: " + IntToString(iteration) + ", "
  }

  /** ", <name>: <first> and <second>", as the two-element actions print their pairs. */
  function PairText(name: string, p: Pair<int, int>): string {
    ", " + name + ": " + IntToString(p.first) + " and " + IntToString(p.second)
  }

  /** The start of a comparison: the action and its indices. */
  function CompareHead(indices: Pair<int, int>): string {
    "Performed action: Compare" + PairText("Compared indices", indices)
  }

  /** The end of a comparison: its elements, then the separator the elements' format ends
      with, immediately followed by the one the array's format begins with. */
  function CompareTail(elements: Pair<int, int>, before: Option<seq<int>>): string {
    PairText("Compared elements", elements) + ", , Array: " + ArrayToString(before)
  }

  /** The start of a swap: the action, its indices and its elements. */
  function SwapHead(indices: Pair<int, int>, elements: Pair<int, int>): string {
    "Performed action: Swap" + PairText("Swapped indices", indices)
    + PairText("Swapped elements", elements) + ", "
  }

  /** The end of a swap: both arrays. */
  function SwapTail(before: Option<seq<int>>, after: Option<seq<int>>): string {
    "Array before swap: " + ArrayToString(before) + ", Array after swap: " + ArrayToString(after)
  }

  /** The action-specific part of a rendering, or `None` for the null dereference. */
  function Describe(p: SortingPayload): Option<string> {
    match p.action
    case Highlight =>
      Some("Performed action: Highlight"
           + ", Highlighted index: " + IntToString(p.index)
           + ", Highlighted element: " + IntToString(p.element)
           + ", Array: " + ArrayToString(p.before))
    case Compare =>
      if p.indices == None || p.elements == None then None
      else
        Some(CompareHead(p.indices.value) + CompareTail(p.elements.value, p.before))
    case Swap =>
      if p.indices == None || p.elements == None then None
      else
        Some(SwapHead(p.indices.value, p.elements.value) + SwapTail(p.before, p.after))
  }

  /** `SortingState.toString` for a state with the given id, iteration and payload. */
  function ToString(id: int, iteration: int, p: SortingPayload): Result<string, RenderError> {
    match Describe(p)
    case None => Failure(NullPointer)
    case Some(d) => Success(Header(id, iteration) + d)
  }

  predicate StartsWith(s: string, prefix: string) {
    |prefix| <= |s| && s[..|prefix|] == prefix
  }

  predicate EndsWith(s: string, suffix: string) {
    |suffix| <= |s| && s[|s| - |suffix|..] == suffix
  }

  lemma Affixes(a: string, b: string)
    ensures StartsWith(a + b, a) && EndsWith(a + b, b)
  {
    assert (a + b)[..|a|] == a;
    assert (a + b)[|a|..] == b;
  }

  /** Rendering fails exactly for a two-element action that lacks one of its pairs; given
      non-null arguments, as every caller in the core passes, the three factories never
      build such a payload. */
  lemma ToStringFails(id: int, iteration: int, p: SortingPayload)
    ensures ToString(id, iteration, p).Failure? <==>
              p.action != Highlight && (p.indices == None || p.elements == None)
  {
  }

  /** Every successful rendering begins with "ID: <id>, Iteration: <iteration>, ", and both
      numbers read back. */
  lemma ToStringHeader(id: int, iteration: int, p: SortingPayload)
    requires ToString(id, iteration, p).Success?
    ensures StartsWith(ToString(id, iteration, p).value, Header(id, iteration))
    ensures ParseInt(IntToString(id)) == Some(id)
    ensures ParseInt(IntToString(iteration)) == Some(iteration)
  {
    Affixes(Header(id, iteration), Describe(p).value);
    IntToStringRoundTrip(id);
    IntToStringRoundTrip(iteration);
  }

  /** The last part of a three-part string is a suffix of it. */
  lemma SuffixOfConcat(a: string, b: string, c: string)
    ensures EndsWith(a + (b + c), c)
  {
    assert a + (b + c) == (a + b) + c;
    Affixes(a + b, c);
  }

  /** A comparison ends with its elements, then the doubled separator ", , ", then the
      array. */
  lemma CompareRendering(id: int, iteration: int, before: seq<int>, indices: Pair<int, int>,
                         elements: Pair<int, int>)
    ensures var r := ToString(id, iteration, ComparisonOf(before, indices, elements));
            r.Success? && EndsWith(r.value, CompareTail(elements, Some(before)))
  {
    SuffixOfConcat(Header(id, iteration), CompareHead(indices), CompareTail(elements, Some(before)));
  }

  /** A swap ends with both arrays: "Array before swap: [...], Array after swap: [...]". */
  lemma SwapRendering(id: int, iteration: int, before: seq<int>, after: seq<int>,
                      indices: Pair<int, int>, elements: Pair<int, int>)
    ensures var r := ToString(id, iteration, SwapOf(before, after, indices, elements));
            r.Success? && EndsWith(r.value, SwapTail(Some(before), Some(after)))
  {
    SuffixOfConcat(Header(id, iteration), SwapHead(indices, elements),
                   SwapTail(Some(before), Some(after)));
  }
}
