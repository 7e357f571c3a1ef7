# Stratified trial-count sampler of the Binomial/Normal quantile bias experiment

`InverseBinomialCdfNormalApproximationBiasTest` measures how far the Normal
approximation of the Binomial quantile function is from the exact quantile. To
estimate the mean error over trial counts `n` from `MIN_N = 100_000` to
`MAX_N = 1_000_000_000`, it does not visit every `n`. Instead it cuts that range
into geometric buckets `[baseN, (int) (baseN * 1.01))`, draws up to 1000
distinct `n` from each bucket with a seeded `SplittableRandom`, and appends
them all to one list `ns`. This project models that sampler and the integer
overflow guard applied to each error sample, and proves what they promise.

Modules, one per concern:

- `Throws`: the exceptions the code can raise (`IllegalArgumentException`,
  `ArithmeticException`) and a result type that carries them. The model adds
  one more, `DrawsExhausted`, explained below.
- `JavaInt`: Java's `int` and `long` ranges. It also gives the wrapping
  subtraction `Sub32` and the narrowing cast `(int)` of a `long`.
- `RandomSelection`: `generateRandomSelection`. The seeded generator is the class
  `RepeatableRandom`. Its state is the sequence of raw outputs it still has to
  produce. `NextInt(origin, bound)` reduces the next raw output `u` to
  `origin + u % (bound - origin)`, and it throws `IllegalArgumentException`
  when `origin >= bound`. The dense branch is `Range`, which is
  `IntStream.range`. The rejection loop is the method's `while` loop. It is
  proved against the function `Fill`, and the lemmas about `Fill` state what
  the loop guarantees.
- `TrialCountSampler`: the bucket loop of `estimateMeanError` (lines 48-56),
  as the method `CollectTrialCounts`. Its ghost predicates `LoopState` (what
  `ns` holds) and `DrawState` (what the shared generator has given) are the
  loop invariant. `SelectAll` is the selection of every bucket in turn from
  one generator, each drawing from what the earlier buckets left. The bucket layout is the function `BucketsFrom`, and the
  value of `baseN` when the loop exits is `LastLimitFrom`.
- `ApproximationError`: `Math.toIntExact` and the `int` subtraction of lines
  86-88.

Modelling decisions:

- Randomness. The generator is represented by the finite prefix of raw outputs
  the run will consume. The real rejection loop ends only with probability 1.
  The model's loop ends when the set is full or when the given prefix is used
  up. The second case is reported as `DrawsExhausted`. `SelectionFailures`
  proves that this happens exactly when all the given draws together cannot
  fill the set.
- Growth step. `(int) (baseN * N_EXP_BASE)` is the parameter `grow` of
  `CollectTrialCounts`. All it has to satisfy is `GrowthOk`: on every bucket
  origin `b`, `b < grow(b) <= INT_MAX`. `baseN *= N_EXP_BASE` is a compound
  assignment with an implicit cast to `int` (section 15.26.2 of the Java
  Language Specification), so it computes the same value as `nLimit`. The
  model therefore sets `baseN := grow(baseN)`. `TruncatedGrowth`
  (`b + b / 100`, the exact floor of `b * 1.01`) is one step that satisfies
  `GrowthOk`.
- `int` arithmetic. The branch test `bound - origin <= sampleSize` is evaluated
  with 32-bit wrap-around (`Sub32`). At the call site both bounds are
  non-negative, so it never wraps there (`DenseBranchForNaturalBounds`).
  A range wider than `INT_MAX` wraps the width to a negative number, so for
  any sample size of at least -1 the dense branch is taken
  (`WideRangesTakeDenseBranch`, `WideRangeTakesDenseBranch`). A more negative
  sample size can still send such a range to the sampling branch.
- The model follows the code where it is looser than the experiment's intent:
  - The last bucket's limit is not clamped to `MAX_N`, so sampled trial counts
    lie in `[MIN_N, LastLimit)`. `LastLimit` can exceed `MAX_N`.
  - Only the `long`-to-`int` conversion is guarded against overflow. The
    following subtraction is plain `int` arithmetic.

## Model

| member | source | states |
|---|---|---|
| `RandomSelection.Range` | commons-statistics-distribution/src/test/java/org/apache/commons/statistics/distribution/InverseBinomialCdfNormalApproximationBiasTest.java:68 | `IntStream.range(lo, hi)` has `hi - lo` elements (none if `hi <= lo`), and element `i` is `lo + i` |
| `RandomSelection.RangeExactly` | commons-statistics-distribution/src/test/java/org/apache/commons/statistics/distribution/InverseBinomialCdfNormalApproximationBiasTest.java:67-68 | the range list contains `x` iff `lo <= x < hi`; it is strictly ascending and has no duplicates |
| `RandomSelection.Draw` | commons-statistics-distribution/src/test/java/org/apache/commons/statistics/distribution/InverseBinomialCdfNormalApproximationBiasTest.java:72 | a bounded draw lies in `[origin, bound)` |
| `RandomSelection.RepeatableRandom.constructor` | commons-statistics-distribution/src/test/java/org/apache/commons/statistics/distribution/InverseBinomialCdfNormalApproximationBiasTest.java:9 | the shared `SplittableRandom` starts out holding exactly the raw outputs it will produce, in order |
| `RandomSelection.RepeatableRandom.NextInt` | commons-statistics-distribution/src/test/java/org/apache/commons/statistics/distribution/InverseBinomialCdfNormalApproximationBiasTest.java:72 | `nextInt(origin, bound)` throws `IllegalArgumentException` without drawing if `origin >= bound`; otherwise it consumes exactly one raw output and returns a value in `[origin, bound)` |
| `RandomSelection.Fill` | commons-statistics-distribution/src/test/java/org/apache/commons/statistics/distribution/InverseBinomialCdfNormalApproximationBiasTest.java:70-73 | the rejection loop, when it finishes, keeps what it had selected, adds only values of `[origin, bound)`, and uses no more draws than it was given. It never throws `ArithmeticException` |
| `RandomSelection.FillSize` | commons-statistics-distribution/src/test/java/org/apache/commons/statistics/distribution/InverseBinomialCdfNormalApproximationBiasTest.java:70-73 | the finished loop keeps everything it had selected, consumes at most the draws given, and ends with exactly `max(|selected|, sampleSize)` values: it never overshoots |
| `RandomSelection.FillContents` | commons-statistics-distribution/src/test/java/org/apache/commons/statistics/distribution/InverseBinomialCdfNormalApproximationBiasTest.java:70-73 | the finished set is the starting set plus exactly the values drawn from the consumed prefix of draws |
| `RandomSelection.FillStopsWhenFull` | commons-statistics-distribution/src/test/java/org/apache/commons/statistics/distribution/InverseBinomialCdfNormalApproximationBiasTest.java:71 | the loop exits at the first draw that fills the set: one draw earlier, the set was still short of `sampleSize` |
| `RandomSelection.FillThrows` | commons-statistics-distribution/src/test/java/org/apache/commons/statistics/distribution/InverseBinomialCdfNormalApproximationBiasTest.java:71-72 | the loop throws only when it still has to draw. The exception is `IllegalArgumentException` on an empty range and draw exhaustion otherwise |
| `RandomSelection.FillExhaustedIff` | commons-statistics-distribution/src/test/java/org/apache/commons/statistics/distribution/InverseBinomialCdfNormalApproximationBiasTest.java:71-72 | on a non-empty range, the loop runs out of draws iff all the given draws together cannot fill the set to `sampleSize` |
| `RandomSelection.TakesDenseBranch` | commons-statistics-distribution/src/test/java/org/apache/commons/statistics/distribution/InverseBinomialCdfNormalApproximationBiasTest.java:67 | the `int` test `bound - origin <= sampleSize` compares the true width whenever it fits in an `int`. A width above `INT_MAX` is compared as `width - 2^32` |
| `RandomSelection.DenseBranchForNaturalBounds` | commons-statistics-distribution/src/test/java/org/apache/commons/statistics/distribution/InverseBinomialCdfNormalApproximationBiasTest.java:67 | for non-negative bounds, the `int` test `bound - origin <= sampleSize` compares the true width |
| `RandomSelection.WideRangeTakesDenseBranch` | commons-statistics-distribution/src/test/java/org/apache/commons/statistics/distribution/InverseBinomialCdfNormalApproximationBiasTest.java:67 | the range `[-1, INT_MAX)` is wider than 1000, yet the wrapped test sends it to the dense branch |
| `RandomSelection.WideRangesTakeDenseBranch` | commons-statistics-distribution/src/test/java/org/apache/commons/statistics/distribution/InverseBinomialCdfNormalApproximationBiasTest.java:67 | every range wider than `INT_MAX` takes the dense branch for any sample size of at least -1 |
| `RandomSelection.Selected` | commons-statistics-distribution/src/test/java/org/apache/commons/statistics/distribution/InverseBinomialCdfNormalApproximationBiasTest.java:65-75 | `generateRandomSelection` returns the dense list exactly when the `int` test holds. In either branch every value lies in `[origin, bound)`, and it never throws `ArithmeticException` |
| `RandomSelection.DrawsUsed` | commons-statistics-distribution/src/test/java/org/apache/commons/statistics/distribution/InverseBinomialCdfNormalApproximationBiasTest.java:70-73 | the number of draws `generateRandomSelection` consumes is at most the number the generator holds |
| `RandomSelection.GenerateRandomSelection` | commons-statistics-distribution/src/test/java/org/apache/commons/statistics/distribution/InverseBinomialCdfNormalApproximationBiasTest.java:65-75 | the result is `Selected` of the generator's pending draws. On success, exactly the draws the loop used are consumed, and the dense branch consumes none. `IllegalArgumentException` consumes nothing, and exhaustion leaves the generator empty |
| `RandomSelection.DenseSelectionIsWholeRange` | commons-statistics-distribution/src/test/java/org/apache/commons/statistics/distribution/InverseBinomialCdfNormalApproximationBiasTest.java:67-68 | when the dense test holds, the result is every integer of `[origin, bound)` once, in ascending order |
| `RandomSelection.SampledSelectionIsExact` | commons-statistics-distribution/src/test/java/org/apache/commons/statistics/distribution/InverseBinomialCdfNormalApproximationBiasTest.java:69-74 | a completed sampling branch returns a set of exactly `sampleSize` values (none if it is negative). All of them lie in `[origin, bound)` and all were drawn from the generator |
| `RandomSelection.SelectionFailures` | commons-statistics-distribution/src/test/java/org/apache/commons/statistics/distribution/InverseBinomialCdfNormalApproximationBiasTest.java:67-72 | `IllegalArgumentException` iff the sampling branch is taken with a positive size on `bound <= origin`. Exhaustion iff it is taken on a non-empty range whose given draws cannot fill the set. Nothing else is thrown |
| `RandomSelection.IterationOrder` | commons-statistics-distribution/src/test/java/org/apache/commons/statistics/distribution/InverseBinomialCdfNormalApproximationBiasTest.java:55 | `addAll` of a hash set appends each of its elements exactly once, in some order |
| `TrialCountSampler.TruncatedGrowthOk` | commons-statistics-distribution/src/test/java/org/apache/commons/statistics/distribution/InverseBinomialCdfNormalApproximationBiasTest.java:50 | `b + b / 100` (the floor of `b * 1.01`) moves strictly up and stays an `int` on every origin in `[MIN_N, MAX_N)` |
| `TrialCountSampler.BucketsFrom` | commons-statistics-distribution/src/test/java/org/apache/commons/statistics/distribution/InverseBinomialCdfNormalApproximationBiasTest.java:49-50 | every bucket the loop visits starts at or above where the loop started and below `MAX_N`, is non-empty, ends at `grow(origin)` and ends within `int` range |
| `TrialCountSampler.LastLimitFrom` | commons-statistics-distribution/src/test/java/org/apache/commons/statistics/distribution/InverseBinomialCdfNormalApproximationBiasTest.java:49 | the value of `baseN` at loop exit is at least `MAX_N`, at least where the loop started, and still an `int` |
| `TrialCountSampler.BucketsTile` | commons-statistics-distribution/src/test/java/org/apache/commons/statistics/distribution/InverseBinomialCdfNormalApproximationBiasTest.java:49-50 | there are buckets iff `base < MAX_N`, and the first starts at `base`. Each bucket's `nLimit` is the next bucket's `baseN`. Every origin is in `[base, MAX_N)`, and every bucket is non-empty with limit `grow(origin)`. The last limit is the exit value of `baseN`, not clamped to `MAX_N` |
| `TrialCountSampler.BucketsDisjoint` | commons-statistics-distribution/src/test/java/org/apache/commons/statistics/distribution/InverseBinomialCdfNormalApproximationBiasTest.java:49-50 | any bucket ends at or before the origin of every later bucket |
| `TrialCountSampler.BucketsCover` | commons-statistics-distribution/src/test/java/org/apache/commons/statistics/distribution/InverseBinomialCdfNormalApproximationBiasTest.java:49-50 | an integer lies in some bucket iff it lies in `[base, LastLimitFrom(base))` |
| `TrialCountSampler.SelectionFillsBucket` | commons-statistics-distribution/src/test/java/org/apache/commons/statistics/distribution/InverseBinomialCdfNormalApproximationBiasTest.java:54-55 | a successful `generateRandomSelection(1000, baseN, nLimit)` yields `min(1000, nLimit - baseN)` distinct values, all inside the bucket. A bucket at most 1000 wide is enumerated whole, in order |
| `TrialCountSampler.LoopStep` | commons-statistics-distribution/src/test/java/org/apache/commons/statistics/distribution/InverseBinomialCdfNormalApproximationBiasTest.java:49-55 | appending one bucket's sample and moving `baseN` to its limit keeps `ns` equal to the buckets' samples in order. `ns` stays free of duplicates, inside `[MIN_N, baseN)`, and of length equal to the sum of the quotas |
| `TrialCountSampler.LoopExit` | commons-statistics-distribution/src/test/java/org/apache/commons/statistics/distribution/InverseBinomialCdfNormalApproximationBiasTest.java:49 | when `baseN >= MAX_N`, every bucket has been visited. `ns` is then the buckets' samples in order, non-empty, distinct, inside `[MIN_N, LastLimit)`, and as long as the sum of the quotas |
| `TrialCountSampler.BucketSample` | commons-statistics-distribution/src/test/java/org/apache/commons/statistics/distribution/InverseBinomialCdfNormalApproximationBiasTest.java:54-55 | one iteration's `addAll(generateRandomSelection(1000, baseN, nLimit))` appends exactly the selection made from the generator's pending draws: the dense list in order, or each sampled value once. The generator loses exactly the draws that selection used. The values are `min(1000, nLimit - baseN)` distinct values of the bucket, or the whole bucket in order when it is at most 1000 wide. `nextInt` cannot throw on a non-empty bucket |
| `TrialCountSampler.SelectAll` | commons-statistics-distribution/src/test/java/org/apache/commons/statistics/distribution/InverseBinomialCdfNormalApproximationBiasTest.java:48-56 | the loop makes one selection per bucket, as many as there are buckets, from a single generator, and it leaves no more draws than it was given |
| `TrialCountSampler.SelectAllConsumesPrefix` | commons-statistics-distribution/src/test/java/org/apache/commons/statistics/distribution/InverseBinomialCdfNormalApproximationBiasTest.java:48-56 | the draws left after the whole loop are a suffix of the generator's draws: the loop consumes a prefix, in order |
| `TrialCountSampler.SelectAllStep` | commons-statistics-distribution/src/test/java/org/apache/commons/statistics/distribution/InverseBinomialCdfNormalApproximationBiasTest.java:48-55 | one bucket's successful selection, drawn from the current pending draws, moves from the remaining selections to the ones already made, and the rest start after its used draws |
| `TrialCountSampler.DrawStart` | commons-statistics-distribution/src/test/java/org/apache/commons/statistics/distribution/InverseBinomialCdfNormalApproximationBiasTest.java:48 | before the first bucket, nothing has been drawn or appended |
| `TrialCountSampler.DrawStep` | commons-statistics-distribution/src/test/java/org/apache/commons/statistics/distribution/InverseBinomialCdfNormalApproximationBiasTest.java:49-55 | appending one bucket's sample of its selection, and dropping the draws it used, keeps what the loop has taken a prefix of the generator's draws. Each appended sample stays tied to its selection |
| `TrialCountSampler.DrawThrown` | commons-statistics-distribution/src/test/java/org/apache/commons/statistics/distribution/InverseBinomialCdfNormalApproximationBiasTest.java:54-55 | if one bucket's selection fails, the whole loop's selection fails |
| `TrialCountSampler.DrawExit` | commons-statistics-distribution/src/test/java/org/apache/commons/statistics/distribution/InverseBinomialCdfNormalApproximationBiasTest.java:49 | when `baseN >= MAX_N`, the selections made are those of the whole loop, and the generator holds what it leaves |
| `TrialCountSampler.CollectTrialCounts` | commons-statistics-distribution/src/test/java/org/apache/commons/statistics/distribution/InverseBinomialCdfNormalApproximationBiasTest.java:48-56 | the loop succeeds iff `SelectAll` on the generator's draws does. Then `ns` is the concatenation of one sample per bucket, and sample `k` lists the `k`-th selection `SelectAll` makes. The generator ends holding what `SelectAll` leaves, after a consumed prefix of its draws. Each sample fills its bucket. `ns` has length equal to the sum over buckets of `min(1000, nLimit - baseN)`, which is positive, so the later average exists. Its values are distinct and in `[MIN_N, LastLimit)`. The only possible failure is draw exhaustion: `nextInt` never throws here |
| `TrialCountSampler.FirstBucketIsDense` | commons-statistics-distribution/src/test/java/org/apache/commons/statistics/distribution/InverseBinomialCdfNormalApproximationBiasTest.java:49-54 | with the truncated 1.01 growth, the first bucket is `[100000, 101000)`. Its width is exactly 1000, so it is enumerated densely |
| `JavaInt.Wrap32` | commons-statistics-distribution/src/test/java/org/apache/commons/statistics/distribution/InverseBinomialCdfNormalApproximationBiasTest.java:88 | the `int` kept of an exact result is congruent to it modulo 2^32, and equal to it iff it fits |
| `JavaInt.Sub32` | commons-statistics-distribution/src/test/java/org/apache/commons/statistics/distribution/InverseBinomialCdfNormalApproximationBiasTest.java:67 | `a - b` on `int` is the true difference modulo 2^32, and equal to it iff the difference fits in an `int` |
| `ApproximationError.ToIntExact` | commons-statistics-distribution/src/test/java/org/apache/commons/statistics/distribution/InverseBinomialCdfNormalApproximationBiasTest.java:86 | `Math.toIntExact` succeeds iff the `long` fits in an `int`, then keeping its value; otherwise it throws `ArithmeticException` |
| `ApproximationError.ToIntExactRefusesToWrap` | commons-statistics-distribution/src/test/java/org/apache/commons/statistics/distribution/InverseBinomialCdfNormalApproximationBiasTest.java:86 | `toIntExact` throws exactly where the cast `(int)` would change the value, and agrees with the cast elsewhere |
| `ApproximationError.InverseCdfApproximationError` | commons-statistics-distribution/src/test/java/org/apache/commons/statistics/distribution/InverseBinomialCdfNormalApproximationBiasTest.java:86-88 | the error throws `ArithmeticException` iff the rounded approximation is not an `int`. Otherwise it equals `approx - binomial` modulo 2^32 |
| `ApproximationError.ApproximationErrorSpec` | commons-statistics-distribution/src/test/java/org/apache/commons/statistics/distribution/InverseBinomialCdfNormalApproximationBiasTest.java:86-88 | once `toIntExact` succeeds, the error equals `approx - binomial` exactly when that difference fits in an `int` |
| `ApproximationError.NoWrapForNonNegativeQuantiles` | commons-statistics-distribution/src/test/java/org/apache/commons/statistics/distribution/InverseBinomialCdfNormalApproximationBiasTest.java:84-88 | for non-negative quantiles that fit in an `int`, the error is their exact difference |
| `ApproximationError.SubtractionIsUnguarded` | commons-statistics-distribution/src/test/java/org/apache/commons/statistics/distribution/InverseBinomialCdfNormalApproximationBiasTest.java:88 | `INT_MIN - 1` wraps to `INT_MAX`, while a rounded value of `INT_MAX + 1` is refused |

## Left out

- The Binomial and Normal inverse CDFs (lines 84-85, 101) are library code and floating point. Their results are inputs of `InverseCdfApproximationError`.
- `Math.round`, `Math.sqrt`, the mean and the standard deviation (lines 86, 99-100) are floating point. The rounded `long` is an input.
- The exact double value of `(int) (baseN * 1.01)` is left out because `1.01` is not exact in binary. It is the parameter `grow`, constrained only by `GrowthOk`.
- The sweep over `p` (lines 37-44) is a floating-point loop. The probe windows and all printing in `main` (lines 23-36) are output only.
- The parallel stream and its average (lines 57-62) are concurrency plus a floating-point mean. `CollectTrialCounts` states the facts the stream relies on: every draw happens in the sequential loop, in bucket order (the generator ends holding what `SelectAll` leaves), and `ns` is non-empty, so `getAsDouble` has a value.
- `SplittableRandom`'s internals, including its rejection of biased raw values inside `nextInt`, are not part of this model. A draw is one raw output reduced modulo the width.
- GenerateRandomSelection: the real loop ends only with probability 1. The model runs on a finite prefix of draws and reports `DrawsExhausted` when that prefix cannot fill the set.
- The iteration order of the `HashSet` is not modelled. `IterationOrder` appends the set's elements in an unspecified order.
- Memory limits are not modelled: a dense range too large for an `ArrayList` still yields the full `Range`.
