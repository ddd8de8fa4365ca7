# Maximum-finding and a bounded file queue, verified in Dafny

This project models the two sequential cores of a small set of Java threading
demos and proves their properties. Threads, sleeps and randomness are taken out.

- `first_app.dfy`, module `FirstApp`, covers `src/FirstApp.java`. It finds the
  maximum of an `int` array in three ways. The first is a sequential scan
  (`findMaxSequentially`). The second splits the array into `threadsCount`
  contiguous segments and folds their maxima (`findMaxWithThreads`); here the
  executor becomes a loop over the segments. The third splits recursively at
  the midpoint, with a scan for ranges of at most `THRESHOLD = 10` elements
  (`FindMaxTask.compute`); here fork/join becomes ordinary recursion. Every
  method is proved to return an element of the array that is at least every
  element, and to equal the reference function `SeqMax`, so the three agree.
  The partition is proved to tile the array in order. Its segments are all
  non-empty exactly when the array has at least `threadsCount` elements.
- `third_app.dfy`, module `ThirdApp`, covers `src/ThirdApp.java`. It models the
  `File` record and the `FileType` enum, and the arithmetic that turns random
  draws into a generation delay in [100, 1000], a size in [10, 100], a file type
  and a processing delay of `size * 7`. The shared `LinkedList` is the class
  `FileQueue` over `seq<File>`, with capacity `QUEUE_CAPACITY = 5`. `Put`
  appends at the tail and `Take` removes the head. One iteration of each actor's
  `run` loop is `Generator.Iterate` or `Processor.Iterate`. `RunSchedule` runs
  the two actors on one queue in any order given to it. It proves that files
  come out in the order they went in, that the queue never holds more than 5
  files, and that every file is valid.

Each `wait()` guard loop (`while (queue.size() >= QUEUE_CAPACITY)` and
`while (queue.isEmpty())`) becomes the precondition of the block after it:
`!IsFull()` for `Put` and `!IsEmpty()` for `Take`. That is the condition the
guard loop has established when it exits. In `RunSchedule`, a turn whose guard
would not let the actor through changes nothing: the actor stays parked in
`wait()`. The draws are parameters, so a parked generator iteration is the same
as one whose draws are supplied at the turn that succeeds.

The precondition `a.Length > 0` comes from the unguarded read of `array[0]`.
On an empty array Java throws there, and nothing catches the exception.
`Compute` requires `start < end`. This holds at every recursive call, because
`Middle` leaves both halves non-empty. The only empty range that can arise is
the empty array, where `array[0]` throws first. `FindMaxWithThreads` needs `a.Length >= t`: a
shorter array gives an empty segment, and `findMaxSequentially` then fails
inside its task. `SegmentsNonEmptyIff` shows that this bound is exact.

## Model

| member | source | states |
|---|---|---|
| `FirstApp.Max` | src/FirstApp.java:137 | `Math.max`: the result is one of its two arguments and at least both |
| `FirstApp.SeqMax` | src/FirstApp.java:44-53 | reference maximum of a non-empty sequence: it occurs in the sequence and no element exceeds it |
| `FirstApp.IsMaxUnique` | src/FirstApp.java:16-28 | a sequence has only one maximum, so any two correct maximum computations agree |
| `FirstApp.IsMaxConcat` | src/FirstApp.java:76-84 | the larger of the maxima of two sequences is the maximum of their concatenation |
| `FirstApp.IsMaxStep` | src/FirstApp.java:46-51 | one scan step: the larger of the prefix maximum and the next element is the maximum of the longer prefix |
| `FirstApp.FindMaxSequentially` | src/FirstApp.java:44-53 | for a non-empty array, the scan from `array[0]` returns an element that is at least every element, equal to `SeqMax` |
| `FirstApp.SegmentStart` | src/FirstApp.java:69 | `startIndex = i * (n / t)` lies within `[0, n]` for every `i < t` |
| `FirstApp.SegmentEnd` | src/FirstApp.java:70 | `endIndex` is `n` for the last segment, and for every `i < t` lies between the segment's start and `n` |
| `FirstApp.SegmentBounds` | src/FirstApp.java:69-70 | every segment `[i*(n/t), endIndex)` lies within `[0, n)` with start at most end |
| `FirstApp.SegmentsContiguous` | src/FirstApp.java:68-70 | the first segment starts at 0, the last ends at `n` (absorbing `n mod t`), and each segment ends where the next starts |
| `FirstApp.DivAtLeastOne` | src/FirstApp.java:69 | with at least `t` elements, the segment length `n/t` is at least 1 and `t` segments of that length fit in the array |
| `FirstApp.SegmentNonEmpty` | src/FirstApp.java:69-70 | with at least `t` elements, segment `i` (the last one included) is non-empty |
| `FirstApp.SegmentsNonEmptyIff` | src/FirstApp.java:68-72 | all `t` segments are non-empty if and only if `n >= t`; when `n < t`, segment 0 and every segment before the last are empty |
| `FirstApp.Segment` | src/FirstApp.java:72 | the copy of segment `i` has length `endIndex - startIndex`, and its element `k` is array element `startIndex + k` |
| `FirstApp.CopyOfRange` | src/FirstApp.java:72 | `Arrays.copyOfRange` returns a new array whose contents are exactly `array[from..to)` |
| `FirstApp.Segments` | src/FirstApp.java:68-72 | the `t` segment copies, in order, one per thread |
| `FirstApp.SegmentsPrefix` | src/FirstApp.java:68-70 | the first `j` segments concatenated are exactly the array's prefix up to segment `j-1`'s end |
| `FirstApp.SegmentsPartition` | src/FirstApp.java:68-72 | the segments concatenated are exactly the array: they cover it in order without overlap |
| `FirstApp.SegmentMaxima` | src/FirstApp.java:65-73 | for `t >= 1` and `n >= t`, `futures[i]` is the maximum of segment `i`, for every `i < t` |
| `FirstApp.FoldStep` | src/FirstApp.java:77-84 | folding `futures[i]` into the maximum of segments `0..i-1` gives the maximum of segments `0..i` |
| `FirstApp.FindMaxWithThreads` | src/FirstApp.java:56-89 | for `t >= 1` threads and `n >= t`, folding the segment maxima from `futures[0]` gives the array's maximum, equal to `SeqMax` |
| `FirstApp.Middle` | src/FirstApp.java:116-133 | for a non-negative `start` with `end - start > THRESHOLD`, the split point leaves both halves non-empty and strictly shorter, so the recursion terminates |
| `FirstApp.Compute` | src/FirstApp.java:114-139 | for `start < end`, `compute` returns the maximum of `array[start..end)`, by scanning in the base case and combining the halves' maxima otherwise |
| `FirstApp.FindMaxWithForkJoin` | src/FirstApp.java:92-97 | for a non-empty array, the task over `[0, length)` returns the array's maximum, equal to `SeqMax` |
| `FirstApp.FindMaxAllWays` | src/FirstApp.java:10-31 | main's three computations return the same value, and that value is the array's maximum |
| `ThirdApp.FileTypeValues` | src/ThirdApp.java:152-156 | `FileType.values()` has three distinct entries |
| `ThirdApp.Ordinal` | src/ThirdApp.java:152-156 | every type sits at its ordinal in `values()`, so `values()` lists every type |
| `ThirdApp.InRange` | src/ThirdApp.java:57-63 | `nextInt(hi - lo + 1) + lo` lies in `[lo, hi]` for every admissible draw |
| `ThirdApp.InRangeBijective` | src/ThirdApp.java:57-63 | every value of `[lo, hi]` comes from exactly one draw |
| `ThirdApp.GenerationDelay` | src/ThirdApp.java:57 | the generator's sleep lies in [100, 1000] ms |
| `ThirdApp.FileSize` | src/ThirdApp.java:63 | a generated size lies in [10, 100] |
| `ThirdApp.TypeFromDraw` | src/ThirdApp.java:62 | a draw in `[0, values().length)` names the type whose ordinal it is |
| `ThirdApp.TypeFromDrawOrdinal` | src/ThirdApp.java:62 | each type is drawn by its own ordinal |
| `ThirdApp.NewFile` | src/ThirdApp.java:62-64 | a generated file has a valid size, and the type the draw names |
| `ThirdApp.NewFileOnto` | src/ThirdApp.java:62-64 | every file with a size in [10, 100] is generated by exactly one pair of draws |
| `ThirdApp.ProcessingDelay` | src/ThirdApp.java:115 | the processing sleep is a multiple of 7 whose quotient is the size, and lies in [70, 700] ms for a valid file |
| `ThirdApp.ProcessingDelayMonotone` | src/ThirdApp.java:115 | a file is processed for at least as long as another exactly when it is at least as large |
| `ThirdApp.FileQueue.constructor` | src/ThirdApp.java:19 | a new queue is empty |
| `ThirdApp.FileQueue.IsFull` | src/ThirdApp.java:67 | the guard `queue.size() >= QUEUE_CAPACITY`: within the bound it holds exactly when 5 files are queued, and when it fails there is room for one more |
| `ThirdApp.FileQueue.IsEmpty` | src/ThirdApp.java:102 | the guard `queue.isEmpty()` holds exactly when no file is queued |
| `ThirdApp.FileQueue.Put` | src/ThirdApp.java:65-78 | once the queue is not full, the file is appended at the tail, the length grows by one and stays within capacity, and earlier items stay in place |
| `ThirdApp.FileQueue.Take` | src/ThirdApp.java:100-112 | once the queue is not empty, the head is removed and returned, the length drops by one, and the remaining items stay in order |
| `ThirdApp.Generator.constructor` | src/ThirdApp.java:43-45 | a generator works on the queue it is given |
| `ThirdApp.Generator.Iterate` | src/ThirdApp.java:54-79 | one generator iteration returns the sleep for its delay draw and appends the file built from its type and size draws |
| `ThirdApp.Processor.constructor` | src/ThirdApp.java:88-90 | a processor works on the queue it is given |
| `ThirdApp.Processor.Iterate` | src/ThirdApp.java:98-120 | one processor iteration removes the head file and returns it with its processing delay |
| `ThirdApp.FillThenDrain` | src/ThirdApp.java:65-111 | up to 5 files put into an empty queue come out in the same order; the queue is full after filling exactly when 5 went in |
| `ThirdApp.RunSchedule` | src/ThirdApp.java:14-36 | under any interleaving of the two actors, the processed files followed by the queued ones are exactly the generated files in order (FIFO); at most 5 are queued, and every file is valid |

## Left out

- Threads, the `ExecutorService`, the `ForkJoinPool` with `fork`/`join`, and `Future.get` are left out: these are concurrency. Segments and halves are computed one after another.
- `synchronized`, `wait` and `notifyAll` are left out. Each guard loop is replaced by the condition it establishes when it exits, and a parked actor is a turn that changes nothing. Liveness, fairness and wake-ups cannot be stated sequentially.
- The `volatile stopped` flags and `stop()` of `Generator` and `Processor` are left out. Shutdown is a concurrency property, and the sequential model has no equivalent. The swallowed `InterruptedException`s are left out for the same reason.
- `Thread.sleep` and `System.nanoTime` are left out. Sleeps appear only as the delays the model returns.
- `Random` becomes draw parameters whose ranges are preconditions. `generateRandomArray` is left out: it only fixes the array length, and the model takes any array.
- `Runtime.availableProcessors()` becomes the parameter `t >= 1`.
- Console output and `File.toString` are left out.
- `src/SecondApp.java` is not part of this model. It is console input and an executor around a single multiplication.
- Java `int` is modelled as unbounded `int`. This is exact for arrays of at most 1073741832 elements (`main` uses 10000); the index formulas of the thread version never exceed `n`.
- Compute and FindMaxWithForkJoin: do not capture the `int` overflow of `(start + end) / 2` in `compute`. The right child is computed directly (src/FirstApp.java:135), so every node on the rightmost recursion path is evaluated. On that path `end == n` and `start` nears `n`, so `start + end` nears `2n`. It first exceeds 2^31 - 1 for `n = 1073741833`. Java then computes a negative `middle`, the task fails with an exception, and no maximum is returned. The model takes the split to be exact for every array.
