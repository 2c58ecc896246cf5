/** `algorithms.sorting.bubblesort.BubbleSort` together with the state it inherits from
    `algorithms.Algorithm` (the state machine, the total time and iterations) and from
    `algorithms.sorting.SortingAlgorithm` (the array, here the field `buffer`, its `before`
    snapshot and the counters). The class keeps one invariant across every operation: the
    counters are the numbers of comparison and swap entries in its state machine. The clock is a parameter:
    `elapsed(k)` is the k-th reading of a run, in seconds since the run started. */
module BubbleSorting {
  import opened Pairs
  import opened SortingActions
  import opened States
  import opened StateMachines
  import opened SortingStates
  import opened SortingAlgorithms
  import opened BubbleSortSpec
  import opened Summaries

  /** The first `n` clock readings of a run: `elapsed(1)`, ..., `elapsed(n)`. */
  function Readings(elapsed: nat -> real, n: nat): (ts: seq<real>)
    ensures |ts| == n
  {
    if n == 0 then [] else Readings(elapsed, n - 1) + [elapsed(n)]
  }

  /** The k-th reading, counted from 0, is the clock at k + 1. */
  lemma {:induction false} ReadingsAt(elapsed: nat -> real, n: nat, k: nat)
    requires k < n
    ensures Readings(elapsed, n)[k] == elapsed(k + 1)
  {
    if k < n - 1 {
      ReadingsAt(elapsed, n - 1, k);
    }
  }

  class BubbleSort {
    const stateMachine: StateMachine<SortingPayload>
    var totalTime: real
    var totalIterations: int
    var buffer: array<int>
    var before: array<int>
    var totalComparisons: int
    var totalSwaps: int

    ghost predicate Valid()
      reads this, stateMachine, stateMachine.Nodes
    {
      stateMachine.Valid()
      && buffer != before
      && totalComparisons == Count(stateMachine.Entries, Compare)
      && totalSwaps == Count(stateMachine.Entries, Swap)
    }

    /** `new BubbleSort(input)`: `array` and `before` are two fresh copies of the input, the
        state machine is new and empty and every counter is zero. */
    constructor (input: array<int>)
      ensures Valid()
      ensures fresh(buffer) && fresh(before) && fresh(stateMachine)
      ensures buffer[..] == input[..] && before[..] == input[..]
      ensures stateMachine.Entries == []
      ensures totalTime == 0.0 && totalIterations == 0
      ensures totalComparisons == 0 && totalSwaps == 0
    {
      var copy := CopyOf(input);
      var snapshot := CopyOf(copy);
      stateMachine := new StateMachine();
      buffer := copy;
      before := snapshot;
      totalTime := 0.0;
      totalIterations := 0;
      totalComparisons := 0;
      totalSwaps := 0;
    }

    /** `reset`: zeroes the counters and empties the state machine, which stays the same
        object. */
    method Reset()
      requires Valid()
      modifies this, stateMachine
      ensures Valid()
      ensures stateMachine.Entries == [] && stateMachine.Nodes == {}
      ensures totalComparisons == 0 && totalSwaps == 0
      ensures totalIterations == 0 && totalTime == 0.0
      ensures buffer == old(buffer) && before == old(before)
    {
      totalComparisons := 0;
      totalSwaps := 0;
      totalIterations := 0;
      totalTime := 0.0;
      stateMachine.Clear();
    }

    /** `setArray`: a fresh copy of `input` becomes the array, a second fresh copy the
        `before` snapshot, and the algorithm is reset. */
    method SetArray(input: array<int>)
      requires Valid()
      modifies this, stateMachine
      ensures Valid()
      ensures fresh(buffer) && fresh(before)
      ensures buffer[..] == old(input[..]) && before[..] == old(input[..])
      ensures stateMachine.Entries == [] && stateMachine.Nodes == {}
      ensures totalComparisons == 0 && totalSwaps == 0
      ensures totalIterations == 0 && totalTime == 0.0
    {
      var copy := CopyOf(input);
      buffer := copy;
      var snapshot := CopyOf(buffer);
      before := snapshot;
      Reset();
    }

    /** `getArrayCopy`: a fresh array with the current contents. */
    method GetArrayCopy() returns (c: array<int>)
      ensures fresh(c) && c[..] == buffer[..]
    {
      c := CopyOf(buffer);
    }

    /** `stateMachine.append(new SortingState(id, time, iteration, ...))`: builds a state
        whose time is the clock reading of its id and appends it. `t0` are the times the
        trace had when the current run started. */
    method Record(id: nat, iteration: int, event: SortingPayload, elapsed: nat -> real,
                  ghost t0: seq<real>)
      requires stateMachine.Valid() && id >= 1
      requires stateMachine.Times == t0 + Readings(elapsed, id - 1)
      modifies stateMachine, stateMachine.Nodes
      ensures stateMachine.Valid()
      ensures stateMachine.Entries == old(stateMachine.Entries) + [Entry(id, iteration, event)]
      ensures stateMachine.Times == t0 + Readings(elapsed, id)
      ensures unchanged(this)
      ensures fresh(stateMachine.Nodes - old(stateMachine.Nodes))
    {
      var state := new State(id, elapsed(id), iteration, event);
      stateMachine.Append(state);
    }

    /** The run so far as the loops of `run` see it: the array is the buffer of `r`, the
        locals `id`, `iteration` and the two counters are those of `r`, and the state machine
        holds the entries `e0` of earlier runs followed by those of `r`, each carrying the
        clock reading of its id. */
    ghost predicate Tracks(r: Progress, id: nat, iteration: int, comparisons: nat, swaps: nat,
                           elapsed: nat -> real, e0: seq<Entry<SortingPayload>>, t0: seq<real>)
      reads this, buffer, stateMachine, stateMachine.Nodes
    {
      stateMachine.Valid() && r.id == |r.trace| + 1 && buffer[..] == r.buffer
      && stateMachine.Entries == e0 + r.trace
      && stateMachine.Times == t0 + Readings(elapsed, r.id - 1)
      && id == r.id && iteration == r.iteration && comparisons == r.comparisons && swaps == r.swaps
    }

    /** The comparison half of a turn of `run`'s inner loop at position `i`: append the
        comparison of `i` and `i + 1`. The run so far is then `Compared(r, i)`. */
    method CompareAndRecord(i: nat, id: nat, iteration: int, comparisons: nat, swaps: nat,
                            elapsed: nat -> real, ghost e0: seq<Entry<SortingPayload>>,
                            ghost t0: seq<real>, ghost r: Progress)
      requires i + 1 < |r.buffer|
      requires Tracks(r, id, iteration, comparisons, swaps, elapsed, e0, t0)
      modifies stateMachine, stateMachine.Nodes
      ensures Tracks(Compared(r, i), id + 1, iteration + 1, comparisons + 1, swaps, elapsed, e0, t0)
      ensures fresh(stateMachine.Nodes - old(stateMachine.Nodes))
    {
      // The snapshots are the fresh copies `getArrayCopy` makes; nothing writes them later.
      Record(id, iteration, ComparisonOf(buffer[..], Pair(i, i + 1), Pair(buffer[i], buffer[i + 1])),
             elapsed, t0);
    }

    /** The swap half of a turn of `run`'s inner loop: the pair at `i` is out of order and
        its comparison is recorded, the run so far being `c`; exchange the pair and append
        the swap. The run so far is then `Swapped(c, i)`. */
    method SwapAndRecord(i: nat, id: nat, iteration: int, comparisons: nat, swaps: nat,
                         elapsed: nat -> real, ghost e0: seq<Entry<SortingPayload>>,
                         ghost t0: seq<real>, ghost c: Progress)
      requires i + 1 < |c.buffer| && c.buffer[i] > c.buffer[i + 1]
      requires Tracks(c, id, iteration, comparisons, swaps, elapsed, e0, t0)
      modifies buffer, stateMachine, stateMachine.Nodes
      ensures Tracks(Swapped(c, i), id + 1, iteration, comparisons, swaps + 1, elapsed, e0, t0)
      ensures fresh(stateMachine.Nodes - old(stateMachine.Nodes))
    {
      var snapshot := buffer[..];
      var tmp := buffer[i];
      buffer[i] := buffer[i + 1];
      buffer[i + 1] := tmp;
      assert buffer[..] == SwapAdjacent(snapshot, i);
      Record(id, iteration,
             SwapOf(snapshot, buffer[..], Pair(i, i + 1), Pair(buffer[i + 1], buffer[i])),
             elapsed, t0);
    }

    /** One turn of the inner loop of `run` at position `i`: append the comparison, and when
        the pair is out of order swap it and append the swap. The array, the locals and the
        new entries are those of `Step(r, i)`. The comparison is counted before the swap
        rather than after it; nothing reads the counters in between. */
    method RunStep(i: nat, id: nat, iteration: int, comparisons: nat, swaps: nat,
                   elapsed: nat -> real, ghost e0: seq<Entry<SortingPayload>>,
                   ghost t0: seq<real>, ghost r: Progress)
      returns (nextId: nat, nextIteration: int, nextComparisons: nat, nextSwaps: nat)
      requires i + 1 < |r.buffer|
      requires Tracks(r, id, iteration, comparisons, swaps, elapsed, e0, t0)
      modifies buffer, stateMachine, stateMachine.Nodes
      ensures Tracks(Step(r, i), nextId, nextIteration, nextComparisons, nextSwaps, elapsed, e0, t0)
      ensures fresh(stateMachine.Nodes - old(stateMachine.Nodes))
    {
      StepHalves(r, i);
      CompareAndRecord(i, id, iteration, comparisons, swaps, elapsed, e0, t0, r);
      nextId, nextIteration, nextComparisons, nextSwaps := id + 1, iteration + 1, comparisons + 1, swaps;
      if buffer[i] > buffer[i + 1] {
        SwapAndRecord(i, nextId, nextIteration, nextComparisons, nextSwaps, elapsed, e0, t0,
                      Compared(r, i));
        nextId, nextSwaps := nextId + 1, nextSwaps + 1;
      }
    }
    /** The inner loop of `run` over the first `m + 1` cells, starting from `r0`: the
        progress after it is `Pass(r0, m)`. */
    method PassLoop(m: nat, id: nat, iteration: int, comparisons: nat, swaps: nat,
                    elapsed: nat -> real, ghost e0: seq<Entry<SortingPayload>>,
                    ghost t0: seq<real>, ghost r0: Progress)
      returns (nextId: nat, nextIteration: int, nextComparisons: nat, nextSwaps: nat)
      requires m < |r0.buffer|
      requires Tracks(r0, id, iteration, comparisons, swaps, elapsed, e0, t0)
      modifies buffer, stateMachine, stateMachine.Nodes
      ensures Tracks(Pass(r0, m), nextId, nextIteration, nextComparisons, nextSwaps, elapsed, e0, t0)
      ensures fresh(stateMachine.Nodes - old(stateMachine.Nodes))
    {
      nextId, nextIteration, nextComparisons, nextSwaps := id, iteration, comparisons, swaps;
      var i := 0;
      while i < m
        invariant 0 <= i <= m
        invariant Tracks(Pass(r0, i), nextId, nextIteration, nextComparisons, nextSwaps,
                         elapsed, e0, t0)
        invariant fresh(stateMachine.Nodes - old(stateMachine.Nodes))
      {
        PassNext(r0, i);
        nextId, nextIteration, nextComparisons, nextSwaps :=
          RunStep(i, nextId, nextIteration, nextComparisons, nextSwaps, elapsed, e0, t0, Pass(r0, i));
        i := i + 1;
      }
    }

    /** Pass `k` (from 0) of `run`, the outer loop's turn with `n == m + 1`: the inner loop
        over the first `m + 1` cells takes the run from pass `k` to pass `k + 1`. */
    method RunPass(m: nat, id: nat, iteration: int, comparisons: nat, swaps: nat,
                   elapsed: nat -> real, ghost a0: seq<int>, ghost k: nat,
                   ghost e0: seq<Entry<SortingPayload>>, ghost t0: seq<real>)
      returns (nextId: nat, nextIteration: int, nextComparisons: nat, nextSwaps: nat)
      requires k + 1 < |a0| && m == |a0| - (k + 1)
      requires Tracks(Passes(Start(a0), k), id, iteration, comparisons, swaps, elapsed, e0, t0)
      modifies buffer, stateMachine, stateMachine.Nodes
      ensures Tracks(Passes(Start(a0), k + 1), nextId, nextIteration, nextComparisons, nextSwaps,
                     elapsed, e0, t0)
      ensures fresh(stateMachine.Nodes - old(stateMachine.Nodes))
    {
      nextId, nextIteration, nextComparisons, nextSwaps :=
        PassLoop(m, id, iteration, comparisons, swaps, elapsed, e0, t0, Passes(Start(a0), k));
      PassesNext(a0, k, m);
    }

    /** The two loops of `run`: every pass of `BubbleRun`, recorded behind the entries `e0`
        and the times `t0` that were there when the run started. */
    method RunPasses(elapsed: nat -> real, ghost a0: seq<int>, ghost e0: seq<Entry<SortingPayload>>,
                     ghost t0: seq<real>)
      returns (id: nat, iteration: int, comparisons: nat, swaps: nat)
      requires stateMachine.Valid() && buffer[..] == a0
      requires stateMachine.Entries == e0 && stateMachine.Times == t0
      modifies buffer, stateMachine, stateMachine.Nodes
      ensures Tracks(BubbleRun(a0), id, iteration, comparisons, swaps, elapsed, e0, t0)
      ensures fresh(stateMachine.Nodes - old(stateMachine.Nodes))
    {
      var n := buffer.Length;
      ghost var k := 0;
      id, iteration, comparisons, swaps := 1, 1, 0, 0;
      assert e0 + Start(a0).trace == e0 && t0 + Readings(elapsed, 0) == t0;
      assert Passes(Start(a0), 0) == Start(a0);
      while n > 1
        invariant 0 <= n <= |a0| && (|a0| > 0 ==> n >= 1) && k == |a0| - n
        invariant Tracks(Passes(Start(a0), k), id, iteration, comparisons, swaps, elapsed, e0, t0)
        invariant fresh(stateMachine.Nodes - old(stateMachine.Nodes))
      {
        id, iteration, comparisons, swaps :=
          RunPass(n - 1, id, iteration, comparisons, swaps, elapsed, a0, k, e0, t0);
        n := n - 1;
        k := k + 1;
      }
      PassesDone(a0, k);
    }

    /** `run`: bubble sort on the array, appending a comparison state per adjacent pair per
        pass and a swap state behind each comparison of an out-of-order pair. The array,
        the appended entries and the counters are those of `BubbleRun`; ids and iterations
        restart at 1, while the counters and the state machine keep what earlier runs left.
        The k-th state of the run carries the k-th clock reading, and the total time is the
        reading taken after the last state. The loops count into local variables that are
        added to the fields when they end; nothing reads the fields in between. */
    method Run(elapsed: nat -> real)
      requires Valid()
      modifies this`totalComparisons, this`totalSwaps, this`totalTime, this`totalIterations
      modifies buffer, stateMachine, stateMachine.Nodes
      ensures Valid()
      ensures buffer == old(buffer) && before == old(before)
      ensures var r := BubbleRun(old(buffer[..]));
              buffer[..] == r.buffer
              && stateMachine.Entries == old(stateMachine.Entries) + r.trace
              && stateMachine.Times == old(stateMachine.Times) + Readings(elapsed, |r.trace|)
              && totalComparisons == old(totalComparisons) + r.comparisons
              && totalSwaps == old(totalSwaps) + r.swaps
              && totalIterations == r.iteration
              && totalTime == elapsed(r.id)
      ensures fresh(stateMachine.Nodes - old(stateMachine.Nodes))
    {
      ghost var a0 := buffer[..];
      ghost var e0 := stateMachine.Entries;
      ghost var t0 := stateMachine.Times;
      var id, iteration, comparisons, swaps := RunPasses(elapsed, a0, e0, t0);
      BubbleRunAppendedCounts(e0, a0);
      Tally(comparisons, swaps, elapsed(id), iteration);
    }

    /** The end of `run`: what the loops counted goes into the totals, and the last clock
        reading and the iteration counter become the total time and iterations. */
    method Tally(comparisons: nat, swaps: nat, time: real, iteration: int)
      requires stateMachine.Valid() && buffer != before
      requires totalComparisons + comparisons == Count(stateMachine.Entries, Compare)
      requires totalSwaps + swaps == Count(stateMachine.Entries, Swap)
      modifies this`totalComparisons, this`totalSwaps, this`totalTime, this`totalIterations
      ensures Valid()
      ensures totalComparisons == old(totalComparisons) + comparisons
      ensures totalSwaps == old(totalSwaps) + swaps
      ensures totalTime == time && totalIterations == iteration
    {
      totalComparisons, totalSwaps := totalComparisons + comparisons, totalSwaps + swaps;
      totalTime, totalIterations := time, iteration;
    }

    /** `getStateMachine`: runs the algorithm, then hands out its (one and only) state
        machine. Calling it again without a reset runs again and appends again. */
    method GetStateMachine(elapsed: nat -> real) returns (m: StateMachine<SortingPayload>)
      requires Valid()
      modifies this, buffer, stateMachine, stateMachine.Nodes
      ensures Valid() && m == stateMachine
      ensures var r := BubbleRun(old(buffer[..]));
              buffer[..] == r.buffer
              && m.Entries == old(stateMachine.Entries) + r.trace
              && m.Times == old(stateMachine.Times) + Readings(elapsed, |r.trace|)
              && totalComparisons == old(totalComparisons) + r.comparisons
              && totalSwaps == old(totalSwaps) + r.swaps
              && totalIterations == r.iteration
              && totalTime == elapsed(r.id)
      ensures buffer == old(buffer) && before == old(before)
      ensures fresh(stateMachine.Nodes - old(stateMachine.Nodes))
    {
      Run(elapsed);
      m := stateMachine;
    }

    /** The inner loop of `sort` over the first `m + 1` cells: one unrecorded pass. */
    method SortPass(m: nat)
      requires m < buffer.Length
      modifies buffer
      ensures buffer[..] == PassBuffer(old(buffer[..]), m)
    {
      ghost var b0 := buffer[..];
      var i := 0;
      while i < m
        invariant 0 <= i <= m
        invariant buffer[..] == PassBuffer(b0, i)
      {
        ghost var b := buffer[..];
        if buffer[i] > buffer[i + 1] {
          var tmp := buffer[i];
          buffer[i] := buffer[i + 1];
          buffer[i + 1] := tmp;
          assert buffer[..] == SwapAdjacent(b, i);
        }
        assert buffer[..] == StepBuffer(b, i) == PassBuffer(b0, i + 1);
        i := i + 1;
      }
    }

    /** `sort`: the same loops without recording; the array ends as `run` leaves it. */
    method Sort()
      modifies buffer
      ensures buffer[..] == BubbleRun(old(buffer[..])).buffer
      ensures Sorted(buffer[..]) && multiset(buffer[..]) == multiset(old(buffer[..]))
    {
      ghost var a0 := buffer[..];
      ghost var k := 0;
      var n := buffer.Length;
      while n > 1
        invariant 0 <= n <= |a0| && (|a0| > 0 ==> n >= 1) && k == |a0| - n
        invariant buffer[..] == PassesBuffer(a0, k)
      {
        SortPass(n - 1);
        n := n - 1;
        k := k + 1;
      }
      assert k == PassCount(|a0|);
      BubbleRunBuffer(a0);
      BubbleRunSorts(a0);
    }

    /** `getName`. */
    function Name(): string {
      "Bubble Sort"
    }

    /** `getType`. */
    function TypeName(): string {
      "Sorting"
    }

    /** `getSummary`: a sorting summary of the current values. The summary is a value: later
        runs, resets or `setArray` calls do not change it. */
    function GetSummary(): (s: SortingSummary)
      reads this, buffer, before
      ensures s.base.name == "Bubble Sort" && s.base.typeName == "Sorting"
      ensures s.base.totalTime == totalTime && s.base.totalIterations == totalIterations
      ensures s.arrayLength == buffer.Length && s.before == before[..]
      ensures s.totalComparisons == totalComparisons && s.totalSwaps == totalSwaps
    {
      SortingSummary(AlgoSummary(Name(), TypeName(), totalTime, totalIterations),
                     buffer.Length, before[..], totalComparisons, totalSwaps)
    }
  }

  /** A summary taken while the state machine is empty, as right after construction or
      `setArray`, reports no comparisons and no swaps. */
  lemma EmptyTraceSummary(b: BubbleSort)
    requires b.Valid() && b.stateMachine.Entries == []
    ensures b.GetSummary().totalComparisons == 0 && b.GetSummary().totalSwaps == 0
  {
  }

  /** Two `getStateMachine` calls without a reset: the second run starts on the buffer the
      first one left and appends its states behind the first run's, so the call is not
      idempotent (what the second run records is `RerunSwapsNothing`). */
  method GetStateMachineTwice(b: BubbleSort, first: nat -> real, second: nat -> real)
    returns (m: StateMachine<SortingPayload>)
    requires b.Valid()
    modifies b, b.buffer, b.stateMachine, b.stateMachine.Nodes
    ensures m == b.stateMachine
    ensures b.buffer[..] == BubbleRun(old(b.buffer[..])).buffer
    ensures m.Entries == old(b.stateMachine.Entries) + BubbleRun(old(b.buffer[..])).trace
                         + BubbleRun(BubbleRun(old(b.buffer[..])).buffer).trace
  {
    var m1 := b.GetStateMachine(first);
    m := b.GetStateMachine(second);
    RerunSwapsNothing(old(b.buffer[..]));
  }

  /** `setArray` followed by `getStateMachine`: the trace holds exactly the entries of one
      run on the new input, and the counters count them, whatever earlier runs recorded. */
  method SetArrayThenRun(b: BubbleSort, input: array<int>, elapsed: nat -> real)
    returns (m: StateMachine<SortingPayload>)
    requires b.Valid()
    modifies b, b.stateMachine, b.stateMachine.Nodes
    ensures b.Valid() && m == b.stateMachine
    ensures var r := BubbleRun(old(input[..]));
            m.Entries == r.trace && b.buffer[..] == r.buffer
            && b.totalComparisons == Count(r.trace, Compare)
            && b.totalSwaps == Count(r.trace, Swap)
            && b.before[..] == old(input[..])
  {
    b.SetArray(input);
    m := b.GetStateMachine(elapsed);
  }
}
