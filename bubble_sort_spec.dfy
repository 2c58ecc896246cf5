/** What `BubbleSort.run()` does, as a value: the buffer it leaves, the entries it records,
    the final id and iteration counters and the comparisons and swaps it counts. The run
    is built from three layers that follow the loops of `run()`: `Step` is one turn of
    the inner `for` loop, `Pass` the first `m` turns of it, `Passes` the first `k` turns of
    the outer `while` loop. The lemmas state what the recording promises: a sorted
    permutation, exact counts, gapless ids, the iteration numbering the code produces, swap
    entries that differ from their snapshot exactly at the swapped positions, and a replay
    of the swap entries that reproduces the result. */
module BubbleSortSpec {
  import opened Wrappers
  import opened Pairs
  import opened SortingActions
  import opened States
  import opened SortingStates

  type Trace = seq<Entry<SortingPayload>>

  /** The local state of `run()` between two turns of a loop. */
  datatype Progress = Progress(
    buffer: seq<int>,
    trace: Trace,
    id: nat,
    iteration: int,
    comparisons: nat,
    swaps: nat)

  /** The state at the top of `run()`: ids and iterations both start at 1. */
  function Start(a: seq<int>): Progress {
    Progress(a, [], 1, 1, 0, 0)
  }

  /** The buffer with positions `i` and `i + 1` exchanged and nothing else changed. */
  function SwapAdjacent(a: seq<int>, i: nat): (b: seq<int>)
    requires i + 1 < |a|
    ensures |b| == |a| && b[i] == a[i + 1] && b[i + 1] == a[i]
    ensures forall k :: 0 <= k < |a| && k != i && k != i + 1 ==> b[k] == a[k]
  {
    seq(|a|, k requires 0 <= k < |a| => if k == i then a[i + 1] else if k == i + 1 then a[i] else a[k])
  }

  /** The comparison entry recorded at position `i`: the current id and iteration, the
      buffer, the indices `(i, i + 1)` and the two compared elements. */
  function CompareEntry(p: Progress, i: nat): Entry<SortingPayload>
    requires i + 1 < |p.buffer|
  {
    var a := p.buffer;
    Entry(p.id, p.iteration, ComparisonOf(a, Pair(i, i + 1), Pair(a[i], a[i + 1])))
  }

  /** The swap entry recorded at position `i` right after its comparison: the next id, the
      advanced iteration, the buffer before and after, and the elements read back from the
      swapped cells in reverse order, which are the elements as they were before. */
  function SwapEntry(p: Progress, i: nat): Entry<SortingPayload>
    requires i + 1 < |p.buffer|
  {
    var a := p.buffer;
    var b := SwapAdjacent(a, i);
    Entry(p.id + 1, p.iteration + 1, SwapOf(a, b, Pair(i, i + 1), Pair(b[i + 1], b[i])))
  }

  /** One turn of the inner loop at position `i`: record the comparison of `i` and `i + 1`,
      and when the pair is out of order swap it and record the swap. The comparison takes
      the current iteration and advances it; the swap takes the advanced value. */
  function Step(p: Progress, i: nat): (q: Progress)
    requires i + 1 < |p.buffer|
  {
    if p.buffer[i] > p.buffer[i + 1] then
      Progress(SwapAdjacent(p.buffer, i), p.trace + [CompareEntry(p, i)] + [SwapEntry(p, i)],
               p.id + 2, p.iteration + 1, p.comparisons + 1, p.swaps + 1)
    else
      Progress(p.buffer, p.trace + [CompareEntry(p, i)], p.id + 1, p.iteration + 1,
               p.comparisons + 1, p.swaps)
  }

  /** The first half of a step: the comparison of `i` and `i + 1` is recorded and counted. */
  function Compared(p: Progress, i: nat): (c: Progress)
    requires i + 1 < |p.buffer|
  {
    Progress(p.buffer, p.trace + [CompareEntry(p, i)], p.id + 1, p.iteration + 1,
             p.comparisons + 1, p.swaps)
  }

  /** The second half of a step, on an out-of-order pair: the pair is exchanged and the swap
      is recorded with the id and the iteration the comparison left, and counted. */
  function Swapped(c: Progress, i: nat): Progress
    requires i + 1 < |c.buffer|
  {
    var a := c.buffer;
    var b := SwapAdjacent(a, i);
    Progress(b, c.trace + [Entry(c.id, c.iteration, SwapOf(a, b, Pair(i, i + 1), Pair(b[i + 1], b[i])))],
             c.id + 1, c.iteration, c.comparisons, c.swaps + 1)
  }

  /** A step is its comparison half, followed by its swap half when the pair is out of
      order. */
  lemma StepHalves(p: Progress, i: nat)
    requires i + 1 < |p.buffer|
    ensures Step(p, i) == if p.buffer[i] > p.buffer[i + 1] then Swapped(Compared(p, i), i)
                          else Compared(p, i)
  {
  }

  /** The first `m` turns of the inner loop (positions `0 .. m - 1`). */
  function Pass(p: Progress, m: nat): (q: Progress)
    requires m < |p.buffer|
    ensures |q.buffer| == |p.buffer|
  {
    if m == 0 then p else Step(Pass(p, m - 1), m - 1)
  }

  /** The first `k` turns of the outer loop; turn `j` (from 0) runs the inner loop while
      `i < n - 1` with `n == |buffer| - j`. */
  function Passes(p: Progress, k: nat): (q: Progress)
    requires k == 0 || k < |p.buffer|
    ensures |q.buffer| == |p.buffer|
  {
    if k == 0 then p else Pass(Passes(p, k - 1), |p.buffer| - k)
  }

  /** The number of turns of the outer loop: `n` counts down from the length to 1. */
  function PassCount(n: nat): nat {
    if n <= 1 then 0 else n - 1
  }

  /** The whole of `run()` on a buffer `a`. */
  function BubbleRun(a: seq<int>): Progress {
    Passes(Start(a), PassCount(|a|))
  }

  /** The outer loop's bookkeeping: pass `k` (from 0) is the inner loop over the first
      `|a| - k` cells. */
  lemma PassesNext(a: seq<int>, k: nat, m: nat)
    requires k + 1 < |a| && m == |a| - (k + 1)
    ensures Passes(Start(a), k + 1) == Pass(Passes(Start(a), k), m)
  {
  }

  /** The outer loop stops after `PassCount` passes, the whole run. */
  lemma PassesDone(a: seq<int>, k: nat)
    requires k == PassCount(|a|)
    ensures Passes(Start(a), k) == BubbleRun(a)
  {
  }

  /** The inner loop's bookkeeping: one more turn is one more step. */
  lemma PassNext(p: Progress, i: nat)
    requires i + 1 < |p.buffer|
    ensures Pass(p, i + 1) == Step(Pass(p, i), i)
  {
  }

  // ---------------------------------------------------------------------------------------
  // Reading a trace: counting entries and replaying swaps.

  /** The number of entries of `t` with action `act`. */
  function Count(t: Trace, act: SortingAction): (c: nat)
    ensures c <= |t|
  {
    if t == [] then 0
    else Count(t[..|t| - 1], act) + (if t[|t| - 1].event.action == act then 1 else 0)
  }

  /** What a consumer does with one entry: exchange the two indexed cells of a swap. */
  function ReplayOne(a: seq<int>, e: Entry<SortingPayload>): (b: seq<int>)
    ensures |b| == |a|
  {
    var p := e.event;
    if p.action == Swap && p.indices.Some?
       && 0 <= p.indices.value.first < |a| && 0 <= p.indices.value.second < |a|
    then
      var i, j := p.indices.value.first, p.indices.value.second;
      a[i := a[j]][j := a[i]]
    else
      a
  }

  /** Applying the swap entries of `t`, in order, to a copy of `a`. */
  function Replay(a: seq<int>, t: Trace): (b: seq<int>)
    ensures |b| == |a|
  {
    if t == [] then a else ReplayOne(Replay(a, t[..|t| - 1]), t[|t| - 1])
  }

  lemma ReplaySnoc(a: seq<int>, t: Trace, e: Entry<SortingPayload>)
    ensures Replay(a, t + [e]) == ReplayOne(Replay(a, t), e)
  {
    assert (t + [e])[..|t|] == t;
  }

  lemma CountSnoc(t: Trace, e: Entry<SortingPayload>, act: SortingAction)
    ensures Count(t + [e], act) == Count(t, act) + (if e.event.action == act then 1 else 0)
  {
    assert (t + [e])[..|t|] == t;
  }

  /** Counting distributes over the concatenation of two traces. */
  lemma {:induction false} CountConcat(s: Trace, t: Trace, act: SortingAction)
    ensures Count(s + t, act) == Count(s, act) + Count(t, act)
    decreases |t|
  {
    if t == [] {
      assert s + t == s;
    } else {
      var u, e := t[..|t| - 1], t[|t| - 1];
      assert t == u + [e];
      assert s + t == (s + u) + [e];
      CountSnoc(s + u, e, act);
      CountSnoc(u, e, act);
      CountConcat(s, u, act);
    }
  }

  // ---------------------------------------------------------------------------------------
  // The shape of a recorded run.

  /** The compared pair is out of order. */
  predicate Descending(p: SortingPayload) {
    p.elements.Some? && p.elements.value.first > p.elements.value.second
  }

  /** `p` is the comparison of positions `i` and `i + 1` of `buf`, as the run records it. */
  predicate IsComparisonIn(p: SortingPayload, buf: seq<int>) {
    p.indices.Some?
    && var i := p.indices.value.first;
       0 <= i && i + 1 < |buf|
       && p == ComparisonOf(buf, Pair(i, i + 1), Pair(buf[i], buf[i + 1]))
  }

  /** `p` is the swap of positions `i` and `i + 1` of `buf`, as the run records it: the
      snapshot before, the snapshot after, and the elements as they were before. */
  predicate IsSwapIn(p: SortingPayload, buf: seq<int>) {
    p.indices.Some?
    && var i := p.indices.value.first;
       0 <= i && i + 1 < |buf|
       && p == SwapOf(buf, SwapAdjacent(buf, i), Pair(i, i + 1), Pair(buf[i], buf[i + 1]))
  }

  /** Entry `k` of a run started on `a0`, where the buffer at that moment is the replay
      of the entries before it. */
  predicate EntryWellFormed(a0: seq<int>, t: Trace, k: nat)
    requires k < |t|
  {
    var e := t[k];
    var buf := Replay(a0, t[..k]);
    e.id == k + 1
    && e.event.action != Highlight
    && (e.event.action == Compare ==>
          IsComparisonIn(e.event, buf)
          && e.iteration == Count(t[..k], Compare) + 1
          && (Descending(e.event) <==> k + 1 < |t| && t[k + 1].event.action == Swap))
    && (e.event.action == Swap ==>
          0 < k && t[k - 1].event.action == Compare
          && t[k - 1].event.indices == e.event.indices
          && e.iteration == t[k - 1].iteration + 1
          && IsSwapIn(e.event, buf))
  }

  /** Every entry of `t` is well formed. */
  predicate EntriesWellFormed(a0: seq<int>, t: Trace) {
    forall k :: 0 <= k < |t| ==> EntryWellFormed(a0, t, k)
  }

  /** The loop variables of `run()` as the entries recorded so far determine them, for a
      run started on `a0`: the buffer is the replay of the swaps, the next id follows the
      last one, the counters count, and the iteration is one past the comparisons. */
  function Derived(a0: seq<int>, t: Trace): (p: Progress)
    ensures p.trace == t && |p.buffer| == |a0|
  {
    var comparisons := Count(t, Compare);
    Progress(Replay(a0, t), t, |t| + 1, comparisons + 1, comparisons, Count(t, Swap))
  }

  /** The invariant of both loops of `run()` for a run started on `a0`: the loop variables
      are what the entries determine, and every entry is well formed. */
  predicate Consistent(a0: seq<int>, p: Progress) {
    p == Derived(a0, p.trace) && EntriesWellFormed(a0, p.trace)
  }

  /** Appending entries keeps an entry well formed, unless the first one appended is a swap
      behind a comparison that was last. */
  lemma ExtendWellFormed(a0: seq<int>, t: Trace, u: Trace, k: nat)
    requires k < |t| <= |u| && u[..|t|] == t
    requires EntryWellFormed(a0, t, k)
    requires |t| < |u| ==> u[|t|].event.action != Swap
    ensures EntryWellFormed(a0, u, k)
  {
    assert u[..k] == t[..k];
    assert u[k] == t[k] by { assert u[..|t|][k] == t[k]; }
    if k > 0 {
      assert u[k - 1] == t[k - 1] by { assert u[..|t|][k - 1] == t[k - 1]; }
    }
    if k + 1 < |t| {
      assert u[k + 1] == t[k + 1] by { assert u[..|t|][k + 1] == t[k + 1]; }
    }
  }

  /** The comparison entry appended by a step is well formed. */
  lemma CompareWellFormed(a0: seq<int>, p: Progress, i: nat, u: Trace)
    requires Consistent(a0, p) && i + 1 < |p.buffer|
    requires |p.trace| < |u| && u[..|p.trace| + 1] == p.trace + [CompareEntry(p, i)]
    requires p.buffer[i] > p.buffer[i + 1] <==>
               |p.trace| + 1 < |u| && u[|p.trace| + 1].event.action == Swap
    ensures EntryWellFormed(a0, u, |p.trace|)
  {
    var n := |p.trace|;
    assert u[..n] == p.trace by { assert u[..n] == u[..n + 1][..n]; }
    assert u[n] == CompareEntry(p, i) by { assert u[..n + 1][n] == u[n]; }
  }

  /** The swap entry appended by a step is well formed. */
  lemma SwapWellFormed(a0: seq<int>, p: Progress, i: nat)
    requires Consistent(a0, p) && i + 1 < |p.buffer| && p.buffer[i] > p.buffer[i + 1]
    ensures EntryWellFormed(a0, p.trace + [CompareEntry(p, i)] + [SwapEntry(p, i)], |p.trace| + 1)
  {
    var tc := p.trace + [CompareEntry(p, i)];
    var u := tc + [SwapEntry(p, i)];
    assert u[..|tc|] == tc;
    ReplaySnoc(a0, p.trace, CompareEntry(p, i));
  }

  /** A step keeps every entry well formed and appends well-formed ones. */
  lemma StepWellFormed(a0: seq<int>, p: Progress, i: nat)
    requires Consistent(a0, p) && i + 1 < |p.buffer|
    ensures EntriesWellFormed(a0, Step(p, i).trace)
  {
    var t := p.trace;
    var tc := t + [CompareEntry(p, i)];
    var u := Step(p, i).trace;
    if p.buffer[i] > p.buffer[i + 1] {
      assert u == tc + [SwapEntry(p, i)];
      assert u[..|tc|] == tc;
      SwapWellFormed(a0, p, i);
    } else {
      assert u == tc;
    }
    assert u[..|t|] == t;
    assert u[..|t| + 1] == tc;
    forall k | 0 <= k < |u|
      ensures EntryWellFormed(a0, u, k)
    {
      if k < |t| {
        ExtendWellFormed(a0, t, u, k);
      } else if k == |t| {
        CompareWellFormed(a0, p, i, u);
      }
    }
  }

  /** A step keeps the loop variables what the entries determine. */
  lemma StepDerived(a0: seq<int>, p: Progress, i: nat, q: Progress)
    requires Consistent(a0, p) && i + 1 < |p.buffer| && q == Step(p, i)
    ensures q == Derived(a0, q.trace)
  {
    var t := p.trace;
    var cmp := CompareEntry(p, i);
    var tc := t + [cmp];
    ReplaySnoc(a0, t, cmp);
    CountSnoc(t, cmp, Compare);
    CountSnoc(t, cmp, Swap);
    if p.buffer[i] > p.buffer[i + 1] {
      var sw := SwapEntry(p, i);
      ReplaySnoc(a0, tc, sw);
      CountSnoc(tc, sw, Compare);
      CountSnoc(tc, sw, Swap);
    }
  }

  lemma StepConsistent(a0: seq<int>, p: Progress, i: nat, q: Progress)
    requires Consistent(a0, p) && i + 1 < |p.buffer| && q == Step(p, i)
    ensures Consistent(a0, q)
  {
    StepDerived(a0, p, i, q);
    StepWellFormed(a0, p, i);
  }

  /** The turn that extends a pass by one step keeps the invariant. */
  lemma PassStepConsistent(a0: seq<int>, p: Progress, m: nat)
    requires 0 < m < |p.buffer| && Consistent(a0, Pass(p, m - 1))
    ensures Consistent(a0, Pass(p, m))
  {
    StepConsistent(a0, Pass(p, m - 1), m - 1, Pass(p, m));
  }

  lemma {:induction false} PassConsistent(a0: seq<int>, p: Progress, m: nat)
    requires Consistent(a0, p) && m < |p.buffer|
    ensures Consistent(a0, Pass(p, m))
  {
    if m > 0 {
      PassConsistent(a0, p, m - 1);
      PassStepConsistent(a0, p, m);
    }
  }

  lemma {:induction false} PassesConsistent(a0: seq<int>, p: Progress, k: nat)
    requires Consistent(a0, p) && (k == 0 || k < |p.buffer|)
    ensures Consistent(a0, Passes(p, k))
  {
    if k > 0 {
      PassesConsistent(a0, p, k - 1);
      PassConsistent(a0, Passes(p, k - 1), |p.buffer| - k);
    }
  }

  /** The loop invariant holds of the whole run. */
  lemma BubbleRunConsistent(a: seq<int>)
    ensures Consistent(a, BubbleRun(a))
  {
    assert Consistent(a, Start(a));
    PassesConsistent(a, Start(a), PassCount(|a|));
  }

  /** The counters of a whole run are the numbers of entries of each kind. */
  lemma BubbleRunCounts(a: seq<int>)
    ensures var r := BubbleRun(a);
            r.comparisons == Count(r.trace, Compare) && r.swaps == Count(r.trace, Swap)
            && r.iteration == r.comparisons + 1
  {
    BubbleRunConsistent(a);
  }

  /** A run recorded behind the entries `e0` of earlier runs adds its own counters to their
      counts. */
  lemma BubbleRunAppendedCounts(e0: Trace, a: seq<int>)
    ensures var r := BubbleRun(a);
            Count(e0 + r.trace, Compare) == Count(e0, Compare) + r.comparisons
            && Count(e0 + r.trace, Swap) == Count(e0, Swap) + r.swaps
  {
    BubbleRunCounts(a);
    CountConcat(e0, BubbleRun(a).trace, Compare);
    CountConcat(e0, BubbleRun(a).trace, Swap);
  }

  // ---------------------------------------------------------------------------------------
  // Sorting.

  predicate Sorted(s: seq<int>) {
    forall i, j :: 0 <= i < j < |s| ==> s[i] <= s[j]
  }

  /** The part from `lo` on is sorted. */
  predicate SortedFrom(s: seq<int>, lo: int) {
    forall i, j :: 0 <= i && lo <= i < j < |s| ==> s[i] <= s[j]
  }

  /** Nothing before `lo` exceeds anything from `lo` on. */
  predicate Partitioned(s: seq<int>, lo: int) {
    forall i, j :: 0 <= i < lo <= j < |s| ==> s[i] <= s[j]
  }

  /** What a step does to the buffer: the pair at `i` and `i + 1` ends in order. */
  function StepBuffer(a: seq<int>, i: nat): (b: seq<int>)
    requires i + 1 < |a|
    ensures |b| == |a|
  {
    if a[i] > a[i + 1] then SwapAdjacent(a, i) else a
  }

  /** What the first `m` turns of the inner loop do to the buffer. */
  function PassBuffer(a: seq<int>, m: nat): (b: seq<int>)
    requires m < |a|
    ensures |b| == |a|
  {
    if m == 0 then a else StepBuffer(PassBuffer(a, m - 1), m - 1)
  }

  /** What the first `k` turns of the outer loop do to the buffer. */
  function PassesBuffer(a: seq<int>, k: nat): (b: seq<int>)
    requires k == 0 || k < |a|
    ensures |b| == |a|
  {
    if k == 0 then a else PassBuffer(PassesBuffer(a, k - 1), |a| - k)
  }

  /** The buffer a pass leaves depends on nothing but the buffer it starts from. */
  lemma {:induction false} PassBufferAgrees(p: Progress, m: nat)
    requires m < |p.buffer|
    ensures Pass(p, m).buffer == PassBuffer(p.buffer, m)
  {
    if m > 0 {
      PassBufferAgrees(p, m - 1);
    }
  }

  lemma {:induction false} PassesBufferAgrees(p: Progress, k: nat)
    requires k == 0 || k < |p.buffer|
    ensures Passes(p, k).buffer == PassesBuffer(p.buffer, k)
  {
    if k > 0 {
      PassesBufferAgrees(p, k - 1);
      PassesBufferStep(p, k);
    }
  }

  /** One more turn of the outer loop keeps the agreement. */
  lemma PassesBufferStep(p: Progress, k: nat)
    requires 0 < k < |p.buffer| && Passes(p, k - 1).buffer == PassesBuffer(p.buffer, k - 1)
    ensures Passes(p, k).buffer == PassesBuffer(p.buffer, k)
  {
    PassBufferAgrees(Passes(p, k - 1), |p.buffer| - k);
  }

  /** The buffer a whole run leaves. */
  lemma BubbleRunBuffer(a: seq<int>)
    ensures BubbleRun(a).buffer == PassesBuffer(a, PassCount(|a|))
  {
    PassesBufferAgrees(Start(a), PassCount(|a|));
  }

  /** The step at `m - 1` orders the pair at `m - 1` and `m`, which ends holding the larger of
      the two, and touches no other cell. */
  lemma StepOrders(a: seq<int>, m: nat)
    requires 0 < m < |a|
    ensures StepBuffer(a, m - 1)[m - 1] <= StepBuffer(a, m - 1)[m]
    ensures a[m - 1] <= StepBuffer(a, m - 1)[m] && a[m] <= StepBuffer(a, m - 1)[m]
    ensures forall k :: 0 <= k < |a| && k != m - 1 && k != m ==> StepBuffer(a, m - 1)[k] == a[k]
  {
  }

  /** The step at `m - 1` permutes the first `m + 1` cells among themselves. */
  lemma StepPermutes(a: seq<int>, m: nat)
    requires 0 < m < |a|
    ensures multiset(StepBuffer(a, m - 1)[..m + 1]) == multiset(a[..m + 1])
  {
    var b := StepBuffer(a, m - 1);
    assert a[..m + 1] == a[..m - 1] + [a[m - 1], a[m]];
    assert b[..m + 1] == b[..m - 1] + [b[m - 1], b[m]];
    assert b[..m - 1] == a[..m - 1];
  }

  /** After `m` turns of the inner loop the largest of the first `m + 1` cells has bubbled up
      to position `m`. */
  lemma {:induction false} PassBubblesUp(a: seq<int>, m: nat)
    requires m < |a|
    ensures forall j :: 0 <= j <= m ==> PassBuffer(a, m)[j] <= PassBuffer(a, m)[m]
  {
    if m > 0 {
      var q0, q := PassBuffer(a, m - 1), PassBuffer(a, m);
      assert q == StepBuffer(q0, m - 1);
      PassBubblesUp(a, m - 1);
      StepOrders(q0, m);
    }
  }

  /** The first `m` turns of the inner loop leave the cells after `m` untouched. */
  lemma {:induction false} PassKeepsRest(a: seq<int>, m: nat)
    requires m < |a|
    ensures forall j :: m < j < |a| ==> PassBuffer(a, m)[j] == a[j]
  {
    if m > 0 {
      var q0 := PassBuffer(a, m - 1);
      assert PassBuffer(a, m) == StepBuffer(q0, m - 1);
      PassKeepsRest(a, m - 1);
      StepOrders(q0, m);
    }
  }

  /** The first `m` turns of the inner loop permute the first `m + 1` cells among themselves. */
  lemma {:induction false} PassPermutes(a: seq<int>, m: nat)
    requires m < |a|
    ensures multiset(PassBuffer(a, m)[..m + 1]) == multiset(a[..m + 1])
  {
    if m > 0 {
      var q0 := PassBuffer(a, m - 1);
      var q := PassBuffer(a, m);
      assert q == StepBuffer(q0, m - 1);
      PassPermutes(a, m - 1);
      PassKeepsRest(a, m - 1);
      ExtendPermutedPrefix(a, q0, m);
      StepPermutes(q0, m);
    }
  }

  /** A pass bubbles the largest of the first `m + 1` cells up to position `m`, permutes the
      first `m + 1` cells among themselves and leaves the rest untouched. */
  lemma PassBubbles(a: seq<int>, m: nat)
    requires m < |a|
    ensures forall j :: 0 <= j <= m ==> PassBuffer(a, m)[j] <= PassBuffer(a, m)[m]
    ensures forall j :: m < j < |a| ==> PassBuffer(a, m)[j] == a[j]
    ensures multiset(PassBuffer(a, m)[..m + 1]) == multiset(a[..m + 1])
  {
    PassBubblesUp(a, m);
    PassKeepsRest(a, m);
    PassPermutes(a, m);
  }

  /** A prefix permuted among itself stays so when both sequences go on with the same cell. */
  lemma ExtendPermutedPrefix(a: seq<int>, b: seq<int>, m: nat)
    requires m < |a| == |b| && multiset(b[..m]) == multiset(a[..m]) && b[m] == a[m]
    ensures multiset(b[..m + 1]) == multiset(a[..m + 1])
  {
    assert a[..m + 1] == a[..m] + [a[m]];
    assert b[..m + 1] == b[..m] + [b[m]];
  }

  /** An element of a permuted prefix is bounded by whatever bounded the original prefix. */
  lemma PrefixElementBounded(q: seq<int>, q0: seq<int>, m: nat, i: nat)
    requires m < |q| == |q0| && i <= m
    requires multiset(q[..m + 1]) == multiset(q0[..m + 1])
    requires Partitioned(q0, m + 1)
    ensures forall j :: m < j < |q0| ==> q[i] <= q0[j]
  {
    assert q[..m + 1][i] == q[i];
    assert q[i] in multiset(q0[..m + 1]);
    var l :| 0 <= l < m + 1 && q0[..m + 1][l] == q[i];
    assert q0[l] == q[i];
  }

  /** One pass extends the sorted, partitioned suffix by one cell. */
  lemma PassExtendsSuffix(q0: seq<int>, q: seq<int>, m: nat)
    requires m < |q| == |q0|
    requires SortedFrom(q0, m + 1) && Partitioned(q0, m + 1)
    requires forall j :: 0 <= j <= m ==> q[j] <= q[m]
    requires forall j :: m < j < |q0| ==> q[j] == q0[j]
    requires multiset(q[..m + 1]) == multiset(q0[..m + 1])
    ensures SortedFrom(q, m) && Partitioned(q, m)
  {
    forall i | 0 <= i <= m
      ensures forall j :: m < j < |q| ==> q[i] <= q[j]
    {
      PrefixElementBounded(q, q0, m, i);
    }
  }

  /** A pass permutes the whole buffer. */
  lemma PassPermutesAll(a: seq<int>, m: nat)
    requires m < |a|
    ensures multiset(PassBuffer(a, m)) == multiset(a)
  {
    var q := PassBuffer(a, m);
    PassPermutes(a, m);
    PassKeepsRest(a, m);
    assert q[m + 1..] == a[m + 1..];
    calc {
      multiset(q);
      { assert q == q[..m + 1] + q[m + 1..]; }
      multiset(q[..m + 1]) + multiset(q[m + 1..]);
      multiset(a[..m + 1]) + multiset(a[m + 1..]);
      { assert a == a[..m + 1] + a[m + 1..]; }
      multiset(a);
    }
  }

  /** The first `k` turns of the outer loop permute the buffer. */
  lemma {:induction false} PassesPermutes(a: seq<int>, k: nat)
    requires k == 0 || k < |a|
    ensures multiset(PassesBuffer(a, k)) == multiset(a)
  {
    if k > 0 {
      PassesPermutes(a, k - 1);
      PassPermutesAll(PassesBuffer(a, k - 1), |a| - k);
    }
  }

  /** After `k` turns of the outer loop the last `k` cells hold the `k` largest values in
      order. */
  lemma {:induction false} PassesSort(a: seq<int>, k: nat)
    requires k == 0 || k < |a|
    ensures SortedFrom(PassesBuffer(a, k), |a| - k) && Partitioned(PassesBuffer(a, k), |a| - k)
  {
    if k > 0 {
      var m := |a| - k;
      var r := PassesBuffer(a, k - 1);
      var q := PassesBuffer(a, k);
      assert q == PassBuffer(r, m);
      PassesSort(a, k - 1);
      PassBubbles(r, m);
      PassExtendsSuffix(r, q, m);
    }
  }

  /** `run()` leaves the buffer sorted ascending and a permutation of what it was. */
  lemma BubbleRunSorts(a: seq<int>)
    ensures Sorted(BubbleRun(a).buffer)
    ensures multiset(BubbleRun(a).buffer) == multiset(a)
  {
    PassesSort(a, PassCount(|a|));
    PassesPermutes(a, PassCount(|a|));
    BubbleRunBuffer(a);
  }

  // ---------------------------------------------------------------------------------------
  // Counting.

  lemma {:induction false} PassComparisons(p: Progress, m: nat)
    requires m < |p.buffer|
    ensures Pass(p, m).comparisons == p.comparisons + m
  {
    if m > 0 {
      PassComparisons(p, m - 1);
    }
  }

  lemma {:induction false} PassesComparisons(p: Progress, k: nat)
    requires k == 0 || k < |p.buffer|
    ensures 2 * Passes(p, k).comparisons == 2 * p.comparisons + k * (2 * |p.buffer| - k - 1)
  {
    if k > 0 {
      var n := |p.buffer|;
      PassesComparisons(p, k - 1);
      PassComparisons(Passes(p, k - 1), n - k);
      assert (k - 1) * (2 * n - k) == k * (2 * n - k) - (2 * n - k);
      assert k * (2 * n - k - 1) == k * (2 * n - k) - k;
    }
  }

  /** `run()` records exactly n(n-1)/2 comparisons, one per adjacent pair per pass, and
      counts them; the final iteration counter is one more than that. */
  lemma BubbleRunComparisons(a: seq<int>)
    ensures var r := BubbleRun(a);
            2 * Count(r.trace, Compare) == |a| * (|a| - 1)
            && r.comparisons == Count(r.trace, Compare)
            && r.iteration == r.comparisons + 1
  {
    var n := |a|;
    PassesComparisons(Start(a), PassCount(n));
    BubbleRunCounts(a);
    if n > 1 {
      LastPassArithmetic(n);
    }
  }

  lemma LastPassArithmetic(n: int)
    ensures (n - 1) * (2 * n - (n - 1) - 1) == n * (n - 1)
  {
  }

  /** Instances of `BubbleRunComparisons`: 10 comparisons and a final iteration of 11 for
      five elements, 3 comparisons for three, no entry and an iteration of 1 for at most one. */
  lemma BubbleRunExamples(a: seq<int>)
    ensures |a| == 5 ==> Count(BubbleRun(a).trace, Compare) == 10 && BubbleRun(a).iteration == 11
    ensures |a| == 3 ==> Count(BubbleRun(a).trace, Compare) == 3
    ensures |a| <= 1 ==> BubbleRun(a).trace == [] && BubbleRun(a).iteration == 1
  {
    BubbleRunComparisons(a);
  }

  // ---------------------------------------------------------------------------------------
  // The recorded entries.

  /** The ids are 1, 2, 3, ... in append order, with no gap. */
  lemma BubbleRunIds(a: seq<int>)
    ensures var t := BubbleRun(a).trace;
            forall k :: 0 <= k < |t| ==> t[k].id == k + 1
    ensures BubbleRun(a).id == |BubbleRun(a).trace| + 1
  {
    BubbleRunConsistent(a);
    var t := BubbleRun(a).trace;
    forall k | 0 <= k < |t|
      ensures t[k].id == k + 1
    {
      assert EntryWellFormed(a, t, k);
    }
  }

  /** A comparison is followed by a swap exactly when its pair was out of order. */
  predicate SwapsFollowDescents(t: Trace) {
    forall k :: 0 <= k < |t| && t[k].event.action == Compare ==>
      (Descending(t[k].event) <==> k + 1 < |t| && t[k + 1].event.action == Swap)
  }

  /** Only comparisons and swaps are recorded; a swap is always right behind the comparison
      of the same pair, and follows it exactly when that pair was out of order. */
  lemma BubbleRunActions(a: seq<int>)
    ensures var t := BubbleRun(a).trace;
            forall k :: 0 <= k < |t| ==> t[k].event.action != Highlight
    ensures SwapsFollowDescents(BubbleRun(a).trace)
    ensures var t := BubbleRun(a).trace;
            forall k :: 0 <= k < |t| && t[k].event.action == Swap ==>
              0 < k && t[k - 1].event.action == Compare
              && t[k - 1].event.indices == t[k].event.indices
              && Descending(t[k - 1].event)
    ensures BubbleRun(a).swaps == Count(BubbleRun(a).trace, Swap)
  {
    BubbleRunConsistent(a);
    var t := BubbleRun(a).trace;
    forall k | 0 <= k < |t|
      ensures t[k].event.action != Highlight
      ensures t[k].event.action == Compare ==>
                (Descending(t[k].event) <==> k + 1 < |t| && t[k + 1].event.action == Swap)
    {
      assert EntryWellFormed(a, t, k);
    }
    forall k | 0 <= k < |t| && t[k].event.action == Swap
      ensures 0 < k && t[k - 1].event.action == Compare
              && t[k - 1].event.indices == t[k].event.indices
              && Descending(t[k - 1].event)
    {
      assert EntryWellFormed(a, t, k);
      assert EntryWellFormed(a, t, k - 1);
      assert (k - 1) + 1 < |t| && t[(k - 1) + 1].event.action == Swap;
    }
  }

  /** The k-th comparison carries iteration k; a swap carries its comparison's iteration
      plus one. */
  lemma BubbleRunIterations(a: seq<int>)
    ensures var t := BubbleRun(a).trace;
            (forall k :: 0 <= k < |t| && t[k].event.action == Compare ==>
               t[k].iteration == Count(t[..k], Compare) + 1)
            && (forall k :: 0 < k < |t| && t[k].event.action == Swap ==>
               t[k].iteration == t[k - 1].iteration + 1)
  {
    BubbleRunConsistent(a);
    var t := BubbleRun(a).trace;
    forall k | 0 <= k < |t|
      ensures t[k].event.action == Compare ==> t[k].iteration == Count(t[..k], Compare) + 1
      ensures 0 < k && t[k].event.action == Swap ==> t[k].iteration == t[k - 1].iteration + 1
    {
      assert EntryWellFormed(a, t, k);
    }
  }

  /** Every recorded snapshot is the buffer at that moment, which is the replay of the
      entries before it; a comparison records the two compared cells of it. */
  lemma BubbleRunComparisonEntries(a: seq<int>)
    ensures var t := BubbleRun(a).trace;
            forall k :: 0 <= k < |t| && t[k].event.action == Compare ==>
              var buf := Replay(a, t[..k]);
              t[k].event.before == Some(buf)
              && t[k].event.indices.Some?
              && var i := t[k].event.indices.value.first;
                 t[k].event.indices.value.second == i + 1 && 0 <= i && i + 1 < |a|
                 && t[k].event.elements == Some(Pair(buf[i], buf[i + 1]))
  {
    BubbleRunConsistent(a);
    var t := BubbleRun(a).trace;
    forall k | 0 <= k < |t| && t[k].event.action == Compare
      ensures IsComparisonIn(t[k].event, Replay(a, t[..k]))
    {
      assert EntryWellFormed(a, t, k);
    }
  }

  /** Each swap records the buffer before and after: they differ exactly at the swapped
      positions `i` and `i + 1`, whose values are exchanged, and the recorded elements are
      the pre-swap pair. */
  lemma BubbleRunSwapEntries(a: seq<int>)
    ensures var t := BubbleRun(a).trace;
            forall k :: 0 <= k < |t| && t[k].event.action == Swap ==>
              var ev := t[k].event;
              ev.before.Some? && ev.after.Some? && ev.indices.Some?
              && var b, c, i := ev.before.value, ev.after.value, ev.indices.value.first;
                 ev.indices.value.second == i + 1 && 0 <= i && i + 1 < |b| == |c| == |a|
                 && c[i] == b[i + 1] && c[i + 1] == b[i]
                 && (forall j :: 0 <= j < |b| && j != i && j != i + 1 ==> c[j] == b[j])
                 && ev.elements == Some(Pair(b[i], b[i + 1]))
  {
    BubbleRunConsistent(a);
    var t := BubbleRun(a).trace;
    forall k | 0 <= k < |t| && t[k].event.action == Swap
      ensures IsSwapIn(t[k].event, Replay(a, t[..k]))
    {
      assert EntryWellFormed(a, t, k);
    }
  }

  /** Applying the swap entries, in order, to a copy of the input reproduces the buffer the
      run leaves, which is the input sorted. */
  lemma BubbleRunReplays(a: seq<int>)
    ensures Replay(a, BubbleRun(a).trace) == BubbleRun(a).buffer
    ensures Sorted(Replay(a, BubbleRun(a).trace))
  {
    BubbleRunConsistent(a);
    BubbleRunSorts(a);
  }

  /** Every recorded entry renders without a null dereference. */
  lemma BubbleRunRenders(a: seq<int>)
    ensures var t := BubbleRun(a).trace;
            forall k :: 0 <= k < |t| ==> ToString(t[k].id, t[k].iteration, t[k].event).Success?
  {
    BubbleRunConsistent(a);
    var t := BubbleRun(a).trace;
    forall k | 0 <= k < |t|
      ensures ToString(t[k].id, t[k].iteration, t[k].event).Success?
    {
      assert EntryWellFormed(a, t, k);
    }
  }

  // ---------------------------------------------------------------------------------------
  // An already sorted buffer.

  lemma {:induction false} SortedPass(p: Progress, m: nat)
    requires m < |p.buffer| && Sorted(p.buffer)
    ensures Pass(p, m).buffer == p.buffer && Pass(p, m).swaps == p.swaps
  {
    if m > 0 {
      SortedPass(p, m - 1);
    }
  }

  lemma {:induction false} SortedPasses(p: Progress, k: nat)
    requires (k == 0 || k < |p.buffer|) && Sorted(p.buffer)
    ensures Passes(p, k).buffer == p.buffer && Passes(p, k).swaps == p.swaps
  {
    if k > 0 {
      SortedPasses(p, k - 1);
      SortedPass(Passes(p, k - 1), |p.buffer| - k);
    }
  }

  /** On a sorted buffer `run()` swaps nothing and records no swap, yet still records all
      n(n-1)/2 comparisons. This is what a second run without a reset appends. */
  lemma SortedRunSwapsNothing(a: seq<int>)
    requires Sorted(a)
    ensures BubbleRun(a).buffer == a
    ensures BubbleRun(a).swaps == 0 && Count(BubbleRun(a).trace, Swap) == 0
    ensures 2 * Count(BubbleRun(a).trace, Compare) == |a| * (|a| - 1)
  {
    SortedPasses(Start(a), PassCount(|a|));
    BubbleRunConsistent(a);
    BubbleRunComparisons(a);
  }

  /** A second run on what a run leaves, as `getStateMachine` called twice without a reset
      does: it leaves the buffer as it was and records no swap, yet records all n(n-1)/2 comparisons again. */
  lemma RerunSwapsNothing(a: seq<int>)
    ensures BubbleRun(BubbleRun(a).buffer).buffer == BubbleRun(a).buffer
    ensures Count(BubbleRun(BubbleRun(a).buffer).trace, Swap) == 0
    ensures 2 * Count(BubbleRun(BubbleRun(a).buffer).trace, Compare) == |a| * (|a| - 1)
  {
    BubbleRunSorts(a);
    SortedRunSwapsNothing(BubbleRun(a).buffer);
  }
}
