/** `gui.sorting.ArrayUtils`: the in-place helpers the sorting view applies to its array
    before an algorithm runs. Each method is proved against a function on the array's
    contents, and the properties the view relies on are lemmas about those functions. */
module ArrayUtils {
  import opened Wrappers

  // ---------------------------------------------------------------------------------------
  // reverseArray

  /** The elements of `s` in the opposite order. */
  function Reversed(s: seq<int>): (r: seq<int>)
    ensures |r| == |s|
  {
    if s == [] then [] else Reversed(s[1..]) + [s[0]]
  }

  /** Position `k` of the reversal holds the element `k` places from the end. */
  lemma {:induction false} ReversedAt(s: seq<int>, k: nat)
    requires k < |s|
    ensures Reversed(s)[k] == s[|s| - 1 - k]
  {
    if k < |s| - 1 {
      ReversedAt(s[1..], k);
    }
  }

  /** Reversing twice gives back the original. */
  lemma ReversedTwice(s: seq<int>)
    ensures Reversed(Reversed(s)) == s
  {
    var r := Reversed(s);
    forall k | 0 <= k < |s|
      ensures Reversed(r)[k] == s[k]
    {
      ReversedAt(r, k);
      ReversedAt(s, |s| - 1 - k);
    }
  }

  /** An array of length 0 or 1 is its own reversal. */
  lemma ReversedShort(s: seq<int>)
    requires |s| <= 1
    ensures Reversed(s) == s
  {
    if |s| == 1 {
      assert Reversed(s) == Reversed(s[1..]) + [s[0]];
    }
  }

  /** `reverseArray`: swaps cell `i` with its mirror cell for every `i` below half the
      length. */
  method ReverseArray(a: array<int>)
    modifies a
    ensures a[..] == Reversed(old(a[..]))
    ensures forall k :: 0 <= k < a.Length ==> a[k] == old(a[a.Length - 1 - k])
  {
    ghost var a0 := a[..];
    var n := a.Length;
    var i := 0;
    while i < n / 2
      invariant 0 <= i <= n / 2
      invariant forall k :: 0 <= k < i ==> a[k] == a0[n - 1 - k] && a[n - 1 - k] == a0[k]
      invariant forall k :: i <= k < n - i ==> a[k] == a0[k]
    {
      var temp := a[i];
      a[i] := a[n - i - 1];
      a[n - i - 1] := temp;
      i := i + 1;
    }
    forall k | 0 <= k < n
      ensures a[k] == Reversed(a0)[k]
    {
      ReversedAt(a0, k);
    }
  }

  // ---------------------------------------------------------------------------------------
  // shuffleArray

  /** `s` with the cells `i` and `j` exchanged. */
  function Swap(s: seq<int>, i: nat, j: nat): (t: seq<int>)
    requires i < |s| && j < |s|
    ensures |t| == |s| && t[i] == s[j] && t[j] == s[i]
    ensures forall k :: 0 <= k < |s| && k != i && k != j ==> t[k] == s[k]
  {
    seq(|s|, k requires 0 <= k < |s| => if k == i then s[j] else if k == j then s[i] else s[k])
  }

  /** Exchanging two cells keeps the elements. */
  lemma SwapPermutes(s: seq<int>, i: nat, j: nat)
    requires j < i < |s|
    ensures multiset(Swap(s, i, j)) == multiset(s)
  {
    var t := Swap(s, i, j);
    var front, middle, back := s[..j], s[j + 1..i], s[i + 1..];
    assert s == front + [s[j]] + middle + [s[i]] + back;
    assert t == front + [s[i]] + middle + [s[j]] + back;
    calc {
      multiset(t);
      multiset(front) + multiset{s[i]} + multiset(middle) + multiset{s[j]} + multiset(back);
      multiset(front) + multiset{s[j]} + multiset(middle) + multiset{s[i]} + multiset(back);
      multiset(s);
    }
  }

  /** The indices the shuffle draws: `picks[i]`, for `i` from the last position down to 1, is
      the `(int) (Math.random() * (i + 1))` of that turn, so it lies in `[0, i]`. */
  predicate ValidPicks(picks: seq<int>) {
    forall i :: 1 <= i < |picks| ==> 0 <= picks[i] <= i
  }

  /** The turns of the shuffle loop for `i`, `i - 1`, ..., 1 applied to `s`. */
  function Shuffle(s: seq<int>, picks: seq<int>, i: nat): (t: seq<int>)
    requires |picks| == |s| && ValidPicks(picks) && (i == 0 || i < |s|)
    ensures |t| == |s|
    decreases i
  {
    if i == 0 then s else Shuffle(Swap(s, i, picks[i]), picks, i - 1)
  }

  /** The whole shuffle: the loop starts at the last position. */
  function Shuffled(s: seq<int>, picks: seq<int>): (t: seq<int>)
    requires |picks| == |s| && ValidPicks(picks)
    ensures |t| == |s|
  {
    Shuffle(s, picks, if |s| == 0 then 0 else |s| - 1)
  }

  /** Whatever indices are drawn, the shuffle yields a permutation of its input. */
  lemma {:induction false} ShufflePermutes(s: seq<int>, picks: seq<int>, i: nat)
    requires |picks| == |s| && ValidPicks(picks) && (i == 0 || i < |s|)
    ensures multiset(Shuffle(s, picks, i)) == multiset(s)
    decreases i
  {
    if i > 0 {
      var t := Swap(s, i, picks[i]);
      if picks[i] < i {
        SwapPermutes(s, i, picks[i]);
      } else {
        assert t == s;
      }
      ShufflePermutes(t, picks, i - 1);
    }
  }

  /** The turns from `i` down never touch a cell above `i`. */
  lemma {:induction false} ShuffleFixesTail(s: seq<int>, picks: seq<int>, i: nat)
    requires |picks| == |s| && ValidPicks(picks) && (i == 0 || i < |s|)
    ensures forall k :: i < k < |s| ==> Shuffle(s, picks, i)[k] == s[k]
    decreases i
  {
    if i > 0 {
      ShuffleFixesTail(Swap(s, i, picks[i]), picks, i - 1);
    }
  }

  /** `shuffleArray` with the drawn indices as a parameter: for `i` from the last position
      down to 1, swaps cell `i` with cell `picks[i]`. */
  method ShuffleArray(a: array<int>, picks: seq<int>)
    requires |picks| == a.Length && ValidPicks(picks)
    modifies a
    ensures a[..] == Shuffled(old(a[..]), picks)
    ensures multiset(a[..]) == multiset(old(a[..]))
  {
    ghost var a0 := a[..];
    var i := a.Length - 1;
    while i > 0
      invariant i < a.Length && (a.Length > 0 ==> 0 <= i)
      invariant Shuffle(a[..], picks, if i < 0 then 0 else i) == Shuffled(a0, picks)
    {
      ghost var b := a[..];
      var index := picks[i];
      var temp := a[index];
      a[index] := a[i];
      a[i] := temp;
      assert a[..] == Swap(b, i, index);
      i := i - 1;
    }
    ShufflePermutes(a0, picks, if |a0| == 0 then 0 else |a0| - 1);
  }

  // ---------------------------------------------------------------------------------------
  // getLargestValue

  /** `getLargestValue`: a running maximum seeded with the first cell. On an empty array
      `getLargestValue` reads `array[0]` and throws; that is `None` here. */
  method GetLargestValue(a: array<int>) returns (r: Option<int>)
    ensures r == None <==> a.Length == 0
    ensures r.Some? ==> r.value in a[..] && forall k :: 0 <= k < a.Length ==> a[k] <= r.value
  {
    if a.Length == 0 {
      return None;
    }
    var largest := a[0];
    var i := 1;
    while i < a.Length
      invariant 1 <= i <= a.Length
      invariant largest in a[..i]
      invariant forall k :: 0 <= k < i ==> a[k] <= largest
    {
      if a[i] > largest {
        largest := a[i];
      }
      i := i + 1;
    }
    assert a[..i] == a[..];
    return Some(largest);
  }
}
