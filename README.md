# JAlgoPlot recording core in Dafny

JAlgoPlot runs a sorting algorithm once over a private `int` buffer. Each comparison and swap
the algorithm performs is appended as a typed state to an append-only log, the
`StateMachine`. The GUI later replays that log. This project models that recording core: the
`algorithms` package, `datastructure.Pair` and the array helpers of `gui.sorting.ArrayUtils`.
It also proves what the recording promises.

Layout, one module per Java type or group of types:

- `wrappers.dfy`: `Option` and `Result`.
- `pair.dfy`: `Pair` and `Pair.of`.
- `sorting_action.dfy`: the closed enum `SortingAction`.
- `state.dfy`: `State`, a class whose `next`/`previous` links are mutable and whose id, time
  and iteration are constants. The fields that `SortingState` adds are a payload `event`.
- `state_machine.dfy`: `StateMachine`, a class over the linked states with a ghost
  `Contents` sequence and `Valid()`; the anonymous iterator class; and a consumer loop
  `Drain`.
- `sorting_state.dfy`: the `SortingState` payload, the four factories and `toString`.
- `sorting_algorithm.dfy`: array copying and `getUnsortednessOfArray`.
- `bubble_sort_spec.dfy`: `run()` of `BubbleSort` as a value (`BubbleRun`) and the lemmas
  about the trace it records.
- `bubble_sort.dfy`: the class `BubbleSort`, which holds the fields of `Algorithm`,
  `SortingAlgorithm` and `BubbleSort`. Its methods are proved against `BubbleRun`.
- `summaries.dfy`: `AlgoSummary` and `SortingSummary` as values, and the field order of
  `toString`.
- `array_utils.dfy`: `reverseArray`, `shuffleArray` and `getLargestValue`.

What the Java code does, which the model reproduces:

- `iteration` advances once per comparison: the k-th COMPARE state carries iteration k.
- A SWAP state carries its comparison's iteration + 1, because `iteration++` has already run
  when the swap is built. `totalIterations` ends as the number of comparisons + 1.
- The elements a SWAP state records are the pre-swap pair `(a[i], a[i+1])`. The code reads
  `array[i + 1], array[i]` after the exchange, which are those two values.
- A zero-length input is accepted. The constructor copies it, `run()` records nothing, and
  `getUnsortednessOfArray` returns `0.0 / 0`, which is `NaN`.
- `run()` does not reset the counters. `totalComparisons`, `totalSwaps` and the state machine
  keep what earlier runs left, while ids and iterations restart at 1. `getStateMachine` always
  runs, so two calls without a reset append two runs.
- `toString` of a COMPARE state prints the separator ", " twice in a row:
  "..., Compared elements: a and b, , Array: [...]".

The clock is a parameter: `elapsed(k)` stands for `(System.nanoTime() - startTime) / 1e9` at the
k-th reading of a run, the seconds since the run started. The random index of `shuffleArray` is a parameter `picks[i]` in `[0, i]`. `%f` is a
parameter `fixed` that turns a real into its digits.

## Model

| member | source | states |
|---|---|---|
| StateMachines.StateMachine.constructor | src/main/java/algorithms/StateMachine.java:44-58 | a new machine is empty: no first or last state and a count of zero |
| StateMachines.StateMachine.Append | src/main/java/algorithms/StateMachine.java:67-77 | the list grows by exactly the given state, stored as given (id not assigned or checked); on an empty list it becomes first and last, otherwise it is linked behind the old last (`old last.next`, `state.previous`) and `first` is unchanged; the count rises by one and stays the chain length |
| StateMachines.StateMachine.LinkLast | src/main/java/algorithms/StateMachine.java:73-76 | the non-empty branch of `append`: links behind the old last and keeps `first` |
| StateMachines.StateMachine.Clear | src/main/java/algorithms/StateMachine.java:123-126 | `first == last == null`, count 0, and the list is empty |
| StateMachines.StateMachine.Iterator | src/main/java/algorithms/StateMachine.java:97-100 | a fresh cursor over this machine that has handed out nothing |
| StateMachines.StateIterator.HasNext | src/main/java/algorithms/StateMachine.java:102-104 | true exactly while states remain, so false at once on an empty machine |
| StateMachines.StateIterator.Next | src/main/java/algorithms/StateMachine.java:107-114 | hands out the next state in append order; past the end returns null and starts over |
| StateMachines.Drain | src/main/java/algorithms/StateMachine.java:97-116 | iterating visits exactly the appended states in append order, `numberOfStates` of them |
| States.State.constructor | src/main/java/algorithms/State.java:75-79 | id, time and iteration are stored unchanged and the links are unset |
| Pairs.Of | src/main/java/datastructure/Pair.java:68-70 | the pair holds exactly the two given components |
| SortingActions.Values | src/main/java/algorithms/sorting/SortingAction.java:27-49 | exactly three constants, once each, in the order HIGHLIGHT, COMPARE, SWAP, inverse to `Ordinal` |
| SortingActions.Ordinal | src/main/java/algorithms/sorting/SortingAction.java:34-48 | the declaration position is below 3 |
| SortingActions.DeclarationOrder | src/main/java/algorithms/sorting/SortingAction.java:34-48 | HIGHLIGHT comes before COMPARE, which comes before SWAP |
| SortingStates.FactoryFields | src/main/java/algorithms/sorting/SortingState.java:144-179 | each factory sets its own action, its arrays and pairs, null for the fields the action has no use for, and `Integer.MIN_VALUE` for index and element of the two-element actions |
| SortingStates.FactoriesFitArity | src/main/java/algorithms/sorting/SortingState.java:144-179 | a highlight carries no pair and no second array; a comparison or swap carries both pairs |
| SortingStates.StateOfUnchecked | src/main/java/algorithms/sorting/SortingState.java:101-110 | the general `state` factory checks nothing: it builds a highlight that carries a pair |
| SortingStates.IntToStringRoundTrip | src/main/java/algorithms/sorting/SortingState.java:262 | `%d` of an int reads back as that int |
| SortingStates.ToStringFails | src/main/java/algorithms/sorting/SortingState.java:274-299 | rendering fails exactly for a COMPARE or SWAP whose indices or elements pair is null |
| SortingStates.ToStringHeader | src/main/java/algorithms/sorting/SortingState.java:262 | every rendering begins "ID: <id>, Iteration: <iteration>, " and both numbers read back |
| SortingStates.CompareRendering | src/main/java/algorithms/sorting/SortingState.java:274-285 | a comparison renders and ends with its elements, the doubled ", , " and the array |
| SortingStates.SwapRendering | src/main/java/algorithms/sorting/SortingState.java:287-298 | a swap renders and ends with "Array before swap: [...], Array after swap: [...]" |
| SortingStates.ArrayToString | src/main/java/algorithms/sorting/SortingState.java:272 | `Arrays.toString` prints "null" for null, "[]" for an empty array, "[x]" with `%d` of x for one element, and a bracketed list otherwise |
| SortingStates.JoinIntsRoundTrip | src/main/java/algorithms/sorting/SortingState.java:272 | the elements, each printed by `%d` and separated by ", ", read back as the same elements in the same order |
| SortingStates.ArrayToStringRoundTrip | src/main/java/algorithms/sorting/SortingState.java:272 | `Arrays.toString` loses nothing: "null" reads back as null and the bracketed list as the array's contents in order |
| SortingAlgorithms.CopyOf | src/main/java/algorithms/sorting/SortingAlgorithm.java:131-135 | a fresh array with the same contents |
| SortingAlgorithms.GetUnsortednessOfArray | src/main/java/algorithms/sorting/SortingAlgorithm.java:165-174 | the counting loop returns the number of positions with `a[i] == i + 1` over the length, and `NaN` for an empty array |
| SortingAlgorithms.FixedPointsCardinality | src/main/java/algorithms/sorting/SortingAlgorithm.java:165-174 | the loop's count is the size of the set `{i : a[i] == i + 1}` |
| SortingAlgorithms.UnsortednessBounds | src/main/java/algorithms/sorting/SortingAlgorithm.java:165-174 | the level is `NaN` exactly for the empty array and otherwise lies in [0, 1] |
| SortingAlgorithms.AscendingFullyMatches | src/main/java/algorithms/sorting/SortingAlgorithm.java:165-174 | the level of `[1..n]` is 1 |
| SortingAlgorithms.ReversedFive | src/main/java/algorithms/sorting/SortingAlgorithm.java:165-174 | only index 2 of `[5,4,3,2,1]` matches, so its level is 1/5 |
| BubbleSorting.BubbleSort.constructor | src/main/java/algorithms/sorting/SortingAlgorithm.java:68-71 | `array` and `before` are two distinct fresh copies of the input; the machine is new and empty; every counter is zero |
| BubbleSorting.BubbleSort.Reset | src/main/java/algorithms/sorting/SortingAlgorithm.java:190-196 | the four counters are zero and the same machine object is emptied |
| BubbleSorting.BubbleSort.SetArray | src/main/java/algorithms/sorting/SortingAlgorithm.java:89-93 | `array` and `before` become fresh copies of the input, the counters are zero and the machine is empty |
| BubbleSorting.BubbleSort.GetArrayCopy | src/main/java/algorithms/sorting/SortingAlgorithm.java:131-135 | a fresh array with the current contents |
| BubbleSorting.BubbleSort.Record | src/main/java/algorithms/sorting/bubblesort/BubbleSort.java:79-88 | one state is appended carrying the given id, iteration and payload and the clock reading of its id |
| BubbleSorting.BubbleSort.CompareAndRecord | src/main/java/algorithms/sorting/bubblesort/BubbleSort.java:79-88 | the comparison of `i` and `i + 1` is appended with the current snapshot and elements |
| BubbleSorting.BubbleSort.SwapAndRecord | src/main/java/algorithms/sorting/bubblesort/BubbleSort.java:89-104 | the pair is exchanged in place and a swap with the snapshots before and after is appended |
| BubbleSorting.BubbleSort.RunStep | src/main/java/algorithms/sorting/bubblesort/BubbleSort.java:78-108 | one turn of the inner loop leaves the array, locals and entries of `Step` |
| BubbleSorting.BubbleSort.PassLoop | src/main/java/algorithms/sorting/bubblesort/BubbleSort.java:78-108 | the inner loop leaves the array, locals and entries of `Pass` |
| BubbleSorting.BubbleSort.RunPass | src/main/java/algorithms/sorting/bubblesort/BubbleSort.java:77-110 | one turn of the outer loop takes the run from pass k to pass k + 1 |
| BubbleSorting.BubbleSort.RunPasses | src/main/java/algorithms/sorting/bubblesort/BubbleSort.java:74-110 | both loops leave the array, locals and entries of `BubbleRun` |
| BubbleSorting.BubbleSort.Run | src/main/java/algorithms/sorting/bubblesort/BubbleSort.java:71-113 | the array, the appended states, their clock readings and the counters are those of `BubbleRun` on the pre-run array; the counters add to what earlier runs left; `totalIterations` and `totalTime` are the final iteration and reading |
| BubbleSorting.BubbleSort.Tally | src/main/java/algorithms/sorting/bubblesort/BubbleSort.java:105-112 | the counters grow by what the loops counted and stay equal to the counts in the trace |
| BubbleSorting.BubbleSort.GetStateMachine | src/main/java/algorithms/Algorithm.java:85-88 | always runs, then returns the one machine with the run appended |
| BubbleSorting.BubbleSort.SortPass | src/main/java/algorithms/sorting/bubblesort/BubbleSort.java:130-144 | one unrecorded inner loop leaves `PassBuffer` of the array |
| BubbleSorting.BubbleSort.Sort | src/main/java/algorithms/sorting/bubblesort/BubbleSort.java:122-149 | leaves the array exactly as `run()` does, sorted and a permutation, recording nothing |
| BubbleSorting.BubbleSort.GetSummary | src/main/java/algorithms/sorting/SortingSummary.java:68-74 | the summary holds the name, type, time, iterations, array length, `before` contents and both counters at the moment it is taken |
| BubbleSorting.EmptyTraceSummary | src/main/java/algorithms/sorting/SortingSummary.java:72-73 | a summary taken with an empty machine reports 0 comparisons and 0 swaps |
| BubbleSorting.GetStateMachineTwice | src/main/java/algorithms/Algorithm.java:85-88 | two calls without a reset append a second run, on the sorted array, behind the first |
| BubbleSorting.SetArrayThenRun | src/main/java/algorithms/sorting/SortingAlgorithm.java:89-93 | after `setArray` and `getStateMachine` the machine holds exactly one run on the new input and the counters count it |
| BubbleSorting.ReadingsAt | src/main/java/algorithms/sorting/bubblesort/BubbleSort.java:82 | the k-th recorded time is the clock reading k + 1 |
| BubbleSortSpec.BubbleRunSorts | src/main/java/algorithms/sorting/bubblesort/BubbleSort.java:77-110 | the array after `run()` is sorted ascending and a permutation of the array before |
| BubbleSortSpec.BubbleRunComparisons | src/main/java/algorithms/sorting/bubblesort/BubbleSort.java:77-110 | exactly n(n-1)/2 COMPARE states, `totalComparisons` counts them, and `totalIterations` is their number + 1 |
| BubbleSortSpec.BubbleRunExamples | src/main/java/algorithms/sorting/bubblesort/BubbleSort.java:77-112 | 10 comparisons and a final iteration of 11 for length 5; 3 comparisons for length 3; nothing recorded and iteration 1 for length 0 or 1 |
| BubbleSortSpec.BubbleRunCounts | src/main/java/algorithms/sorting/bubblesort/BubbleSort.java:105-107 | the run's counters are the numbers of COMPARE and SWAP states it records |
| BubbleSortSpec.BubbleRunAppendedCounts | src/main/java/algorithms/sorting/bubblesort/BubbleSort.java:105-107 | recorded behind earlier states, the counts grow by exactly the run's counters |
| BubbleSortSpec.BubbleRunIds | src/main/java/algorithms/sorting/bubblesort/BubbleSort.java:75-96 | ids are 1, 2, 3, ... in append order with no gap, and the id counter ends one past the last |
| BubbleSortSpec.BubbleRunActions | src/main/java/algorithms/sorting/bubblesort/BubbleSort.java:79-106 | only COMPARE and SWAP are recorded; a SWAP follows the COMPARE of the same pair exactly when that pair was out of order; `totalSwaps` counts the SWAP states |
| BubbleSortSpec.BubbleRunIterations | src/main/java/algorithms/sorting/bubblesort/BubbleSort.java:76-98 | the k-th COMPARE carries iteration k and a SWAP carries its COMPARE's iteration + 1 |
| BubbleSortSpec.BubbleRunComparisonEntries | src/main/java/algorithms/sorting/bubblesort/BubbleSort.java:79-88 | each COMPARE records the array at that moment, adjacent indices and the elements at them |
| BubbleSortSpec.BubbleRunSwapEntries | src/main/java/algorithms/sorting/bubblesort/BubbleSort.java:89-104 | each SWAP's `after` is its `before` with positions i and i + 1 exchanged and nothing else changed, and its elements are the pre-swap pair |
| BubbleSortSpec.BubbleRunReplays | src/main/java/algorithms/sorting/bubblesort/BubbleSort.java:84-103 | applying the SWAP index pairs in order to a copy of the input reproduces the output, which is sorted |
| BubbleSortSpec.BubbleRunRenders | src/main/java/algorithms/sorting/SortingState.java:274-299 | every state `run()` records renders without a null dereference |
| BubbleSortSpec.BubbleRunConsistent | src/main/java/algorithms/sorting/bubblesort/BubbleSort.java:77-110 | the loop variables of a whole run are what its entries determine, and every entry is well formed |
| BubbleSortSpec.SortedRunSwapsNothing | src/main/java/algorithms/sorting/bubblesort/BubbleSort.java:89 | on a sorted array `run()` swaps nothing but still records every comparison |
| BubbleSortSpec.RerunSwapsNothing | src/main/java/algorithms/Algorithm.java:85-88 | a second run on what a run left keeps the array and records no swap |
| BubbleSortSpec.PassesSort | src/main/java/algorithms/sorting/bubblesort/BubbleSort.java:77-110 | after k passes the last k cells are sorted and hold the k largest values |
| BubbleSortSpec.PassBubbles | src/main/java/algorithms/sorting/bubblesort/BubbleSort.java:78-108 | a pass moves the largest of its cells to its last position, permutes its cells and leaves the rest alone |
| Summaries.FieldOrder | src/main/java/algorithms/sorting/SortingSummary.java:113-124 | eight fields in the order type, name, length, level of sorting before, time, iterations, comparisons, swaps |
| Summaries.FieldValues | src/main/java/algorithms/sorting/SortingSummary.java:115-123 | each field carries its own value; the level is `getUnsortednessOfArray(before)` |
| Summaries.ToStringBeginsWithTypeAndName | src/main/java/algorithms/sorting/SortingSummary.java:113-124 | the rendering begins "Type of algorithm: <type>, Name of algorithm: <name>, " |
| ArrayUtils.ReverseArray | src/main/java/gui/sorting/ArrayUtils.java:71-78 | `a[k] == old a[n-1-k]` for every k |
| ArrayUtils.ReversedTwice | src/main/java/gui/sorting/ArrayUtils.java:71-78 | reversing twice restores the array |
| ArrayUtils.ReversedShort | src/main/java/gui/sorting/ArrayUtils.java:73 | arrays of length 0 or 1 are unchanged |
| ArrayUtils.ShuffleArray | src/main/java/gui/sorting/ArrayUtils.java:53-62 | for any drawn indices in [0, i] the result is the shuffle of the input and a permutation of it |
| ArrayUtils.ShufflePermutes | src/main/java/gui/sorting/ArrayUtils.java:53-62 | the shuffle yields a permutation whatever indices are drawn |
| ArrayUtils.ShuffleFixesTail | src/main/java/gui/sorting/ArrayUtils.java:56-61 | turns from i down never touch a cell above i |
| ArrayUtils.GetLargestValue | src/main/java/gui/sorting/ArrayUtils.java:87-95 | an element of the array that is at least every element; `None` for an empty array |

## Left out

- BubbleSorting.BubbleSort.Run: ids, iterations and counters are unbounded. Java's `id++`, `iteration++`, `totalSwaps++` and `totalComparisons++` wrap at 2^31 (BubbleSort.java:75-76, 81, 83, 96, 105, 107). Ids reach n(n-1)+1 on a reversed array, so they wrap once n ≥ 46342.
- BubbleSortSpec.BubbleRun: the same unbounded ids, iterations and counters.
- StateMachines.StateMachine.Append: `numberOfStates` is unbounded, where Java's `int` wraps after 2^31 - 1 appends.
- StateMachines.StateMachine.Append: requires a state that is in no list yet (`state !in Nodes && state.next == null`). Java's `append` accepts any state, and appending one that is already linked breaks "count == chain length". Every caller passes a freshly built state.
- BubbleSorting.BubbleSort.constructor: null arrays are not modelled. Java throws a NullPointerException on a null array in the constructor and `setArray` (SortingAlgorithm.java:69, 90) and in the three ArrayUtils helpers (ArrayUtils.java:56, 73, 88). `array<int>` excludes null.
- SortingStates.ToString: the components of a `Pair<Integer, Integer>` cannot be null here. In Java `%d` prints a null component as "null". A null pair is modelled, as `Failure`.
- SortingStates.ComparisonOf: the factories take non-null arrays and pairs. Java's `highlight`, `comparison` and `swap` (SortingState.java:144-179) store a null array or pair as given, and `comparison(1, 0.0, 1, arr, null, null)` builds a COMPARE whose `toString` throws; `state(...)` with a null action throws at `switch (action)` (SortingState.java:264). Every caller in the core passes non-null arguments.
- SortingStates.IntToString: `%d` prints ASCII digits. Java's `String.format` uses the default locale's digits, which differ in some locales.
- SortingStates.ToString: the `assert indices != null` lines fail with an AssertionError when assertions are enabled and with a NullPointerException otherwise; both are the one `Failure(NullPointer)`.
- SortingStates.StateOf: `SortingState` stores and returns its arrays by reference (SortingState.java:103-104, 187-199). The payload holds `seq<int>` snapshots, so writes through a returned array are not modelled. `run()` passes fresh copies that no one writes.
- BubbleSorting.BubbleSort.GetSummary: `SortingSummary` keeps the algorithm's `before` reference (SortingSummary.java:71). The model keeps its contents. `setArray` replaces `before` instead of writing to it, so the two agree unless outside code writes into that array.
- BubbleSorting.Readings: the clock `elapsed: nat -> real` is unconstrained, so the monotonicity of `System.nanoTime()` is not modelled. The nanosecond-to-second division is part of `elapsed`.
- SortingAlgorithms.Unsortedness: `(double) sum / n` is an exact real quotient, not a rounded `double`.
- Summaries.ToString: `%f` is the parameter `fixed`, so the digits and rounding of `%f` are not modelled. The summary string is fixed up to field order and the integer fields.
- BubbleSorting.BubbleSort: `Algorithm`, `SortingAlgorithm` and `BubbleSort` are merged into one class, since only `BubbleSort` is concrete. The private `reset` is a public method `Reset`, and `setArray` calls it as the Java does.
- BubbleSorting.BubbleSort.Run: the loops count comparisons and swaps in local variables that `Tally` adds to the fields after the loops. Java increments the fields inside the loop; nothing reads them in between.
- The getters (`getId`, `getTime`, `getIteration`, the `SortingState` getters, `getTotalTime`, `getTotalIterations`, `getTotalComparisons`, `getTotalSwaps`, `getArray`, the summary getters) are reads of the corresponding constants, fields and datatype fields. `getArray` hands out the array itself, which is the field `buffer` here.
- `StateMachine.print`, `AlgoSummary.print`, `SortingAlgorithm.printArray` and `arrayToString`: console output. `arrayToString` is `ArrayToString(Some(buffer[..]))`.
- `Math.random` in `shuffleArray` is the parameter `picks`.
- The JavaFX GUI, the graph package, `Main` and the launchers are not part of this model.
