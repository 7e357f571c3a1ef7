/**
 * The stratified sampling of trial counts in `estimateMeanError`: the range
 * [MIN_N, MAX_N) is cut into geometric buckets [baseN, nLimit), each bucket
 * contributes `generateRandomSelection(1000, baseN, nLimit)`, and the samples are
 * appended to one list `ns`. All draws happen here, before any bias is evaluated.
 */
module TrialCountSampler {
  import opened Throws
  import opened JavaInt
  import opened RandomSelection

  const MIN_N: int32 := 100_000
  const MAX_N: int32 := 1_000_000_000
  /** `nsSampleSize`: values drawn per bucket. */
  const SAMPLE_SIZE: int32 := 1000

  /** The half-open bucket [origin, limit) of trial counts. */
  datatype Bucket = Bucket(origin: int, limit: int)

  /**
   * What the model needs of the growth step `(int) (baseN * N_EXP_BASE)`: on every
   * bucket origin it moves strictly up and stays an `int`.
   */
  ghost predicate GrowthOk(grow: int -> int) {
    forall b :: MIN_N <= b < MAX_N ==> b < grow(b) <= INT_MAX
  }

  /** The exact-arithmetic truncation of b * 1.01, one growth step that meets `GrowthOk`. */
  function TruncatedGrowth(b: int): int {
    b + b / 100
  }

  lemma TruncatedGrowthOk()
    ensures GrowthOk(TruncatedGrowth)
  {
  }

  /** The buckets the loop visits when `baseN` starts at `base`. */
  function BucketsFrom(grow: int -> int, base: int): (r: seq<Bucket>)
    requires GrowthOk(grow) && MIN_N <= base
    ensures forall i :: 0 <= i < |r| ==> base <= r[i].origin < r[i].limit <= INT_MAX && r[i].origin < MAX_N
    ensures forall i :: 0 <= i < |r| ==> r[i].limit == grow(r[i].origin)
    decreases MAX_N - base
  {
    if base >= MAX_N then [] else [Bucket(base, grow(base))] + BucketsFrom(grow, grow(base))
  }

  /** The value of `baseN` at which the loop started at `base` exits. */
  function LastLimitFrom(grow: int -> int, base: int): (r: int)
    requires GrowthOk(grow) && MIN_N <= base
    ensures base <= r && MAX_N <= r
    ensures base <= INT_MAX ==> r <= INT_MAX
    decreases MAX_N - base
  {
    if base >= MAX_N then base else LastLimitFrom(grow, grow(base))
  }

  function Buckets(grow: int -> int): seq<Bucket>
    requires GrowthOk(grow)
  {
    BucketsFrom(grow, MIN_N)
  }

  function LastLimit(grow: int -> int): int
    requires GrowthOk(grow)
  {
    LastLimitFrom(grow, MIN_N)
  }

  /**
   * The buckets tile [base, LastLimitFrom(base)): the first starts at `base`, each
   * ends where the next begins, every origin is below MAX_N, none is empty, and the
   * last ends at the loop's exit value, which is at least MAX_N and not clamped to it.
   */
  lemma {:induction false} BucketsTile(grow: int -> int, base: int)
    requires GrowthOk(grow) && MIN_N <= base
    ensures var bs := BucketsFrom(grow, base);
      && (bs != [] <==> base < MAX_N)
      && (bs != [] ==> bs[0].origin == base)
      && (forall i :: 0 <= i < |bs| - 1 ==> bs[i].limit == bs[i + 1].origin)
      && (forall i :: 0 <= i < |bs| ==> base <= bs[i].origin < bs[i].limit && bs[i].origin < MAX_N)
      && (forall i :: 0 <= i < |bs| ==> bs[i].limit == grow(bs[i].origin))
      && (forall i :: 0 <= i < |bs| ==> bs[i].limit <= LastLimitFrom(grow, base))
      && (bs != [] ==> bs[|bs| - 1].limit == LastLimitFrom(grow, base))
    decreases MAX_N - base
  {
    if base < MAX_N {
      var next := grow(base);
      BucketsTile(grow, next);
      var bs := BucketsFrom(grow, base);
      var rest := BucketsFrom(grow, next);
      assert bs == [Bucket(base, next)] + rest;
      assert LastLimitFrom(grow, base) == LastLimitFrom(grow, next);
      forall i | 0 <= i < |bs| - 1 ensures bs[i].limit == bs[i + 1].origin {
        if i > 0 {
          assert bs[i] == rest[i - 1] && bs[i + 1] == rest[i];
        }
      }
      forall i | 0 <= i < |bs| ensures bs[i].limit <= LastLimitFrom(grow, base) {
        if i > 0 {
          assert bs[i] == rest[i - 1];
        }
      }
    }
  }

  /** Buckets are pairwise disjoint: every bucket ends before any later one starts. */
  lemma BucketsDisjoint(grow: int -> int, base: int)
    requires GrowthOk(grow) && MIN_N <= base
    ensures var bs := BucketsFrom(grow, base);
      forall i, j :: 0 <= i < j < |bs| ==> bs[i].limit <= bs[j].origin
  {
    var bs := BucketsFrom(grow, base);
    BucketsTile(grow, base);
    forall i, j | 0 <= i < j < |bs| ensures bs[i].limit <= bs[j].origin {
      var k := i + 1;
      while k < j
        invariant i < k <= j
        invariant bs[i].limit <= bs[k].origin
      {
        k := k + 1;
      }
    }
  }

  predicate InBucket(x: int, b: Bucket) {
    b.origin <= x < b.limit
  }

  /** An integer lies in some bucket exactly when it is in [base, LastLimitFrom(base)). */
  lemma {:induction false} BucketsCover(grow: int -> int, base: int, x: int)
    requires GrowthOk(grow) && MIN_N <= base
    ensures (exists i :: 0 <= i < |BucketsFrom(grow, base)| && InBucket(x, BucketsFrom(grow, base)[i]))
        <==> base <= x < LastLimitFrom(grow, base)
    decreases MAX_N - base
  {
    var bs := BucketsFrom(grow, base);
    BucketsTile(grow, base);
    if base < MAX_N && base <= x < LastLimitFrom(grow, base) {
      var next := grow(base);
      var rest := BucketsFrom(grow, next);
      assert bs == [Bucket(base, next)] + rest;
      assert LastLimitFrom(grow, base) == LastLimitFrom(grow, next);
      if x < next {
        assert InBucket(x, bs[0]);
      } else {
        BucketsCover(grow, next, x);
        var j :| 0 <= j < |rest| && InBucket(x, rest[j]);
        assert InBucket(x, bs[j + 1]);
      }
    }
  }

  /** How many values `generateRandomSelection(1000, origin, limit)` yields for a bucket. */
  function Quota(b: Bucket): int {
    if b.limit - b.origin < SAMPLE_SIZE then b.limit - b.origin else SAMPLE_SIZE as int
  }

  /** The length `ns` reaches: the sum over buckets of min(1000, width). */
  function SampleTotal(bs: seq<Bucket>): int {
    if bs == [] then 0 else SampleTotal(bs[..|bs| - 1]) + Quota(bs[|bs| - 1])
  }

  /** The lists appended one after the other. */
  function Flatten(chunks: seq<seq<int>>): seq<int> {
    if chunks == [] then [] else Flatten(chunks[..|chunks| - 1]) + chunks[|chunks| - 1]
  }

  /**
   * What one bucket contributes to `ns`: min(1000, width) distinct values of the
   * bucket, and the whole bucket in ascending order when it is no wider than 1000.
   */
  ghost predicate FillsBucket(chunk: seq<int>, b: Bucket) {
    && NoDuplicates(chunk)
    && |chunk| == Quota(b)
    && (forall i :: 0 <= i < |chunk| ==> b.origin <= chunk[i] < b.limit)
    && (b.limit - b.origin <= SAMPLE_SIZE ==> chunk == Range(b.origin, b.limit))
  }

  /** A successful selection on a bucket yields exactly that bucket's quota, inside the bucket. */
  lemma SelectionFillsBucket(pending: seq<nat>, origin: int32, limit: int32)
    requires 0 <= origin < limit
    requires Selected(pending, SAMPLE_SIZE, origin, limit).Ok?
    ensures var s := Selected(pending, SAMPLE_SIZE, origin, limit).value;
      && (s.Dense? ==> FillsBucket(s.list, Bucket(origin, limit)))
      && (s.Sampled? ==> limit - origin > SAMPLE_SIZE && |s.hashSet| == Quota(Bucket(origin, limit)))
      && (s.Sampled? ==> forall x :: x in s.hashSet ==> origin <= x < limit)
  {
    DenseBranchForNaturalBounds(SAMPLE_SIZE, origin, limit);
    if TakesDenseBranch(SAMPLE_SIZE, origin, limit) {
      DenseSelectionIsWholeRange(pending, SAMPLE_SIZE, origin, limit);
    } else {
      SampledSelectionIsExact(pending, SAMPLE_SIZE, origin, limit);
    }
  }

  /** Appending values all at or above `m` to values all below it keeps the list free of duplicates. */
  lemma AppendAboveKeepsDistinct(a: seq<int>, b: seq<int>, m: int)
    requires NoDuplicates(a) && NoDuplicates(b)
    requires forall i :: 0 <= i < |a| ==> a[i] < m
    requires forall i :: 0 <= i < |b| ==> m <= b[i]
    ensures NoDuplicates(a + b)
  {
    var ab := a + b;
    forall i, j | 0 <= i < j < |ab| ensures ab[i] != ab[j] {
      if j >= |a| && i < |a| {
        assert ab[i] == a[i] && ab[j] == b[j - |a|];
      }
    }
  }

  /**
   * The state of the bucket loop after the buckets `done`: `ns` is their samples
   * appended in order, each filling its bucket, and `baseN` is where the next bucket starts.
   */
  ghost predicate LoopState(grow: int -> int, done: seq<Bucket>, chunks: seq<seq<int>>, ns: seq<int>, baseN: int)
    requires GrowthOk(grow)
  {
    && MIN_N <= baseN
    && done + BucketsFrom(grow, baseN) == Buckets(grow)
    && LastLimitFrom(grow, baseN) == LastLimit(grow)
    && (done == [] <==> baseN == MIN_N)
    && |chunks| == |done| && ns == Flatten(chunks)
    && (forall k :: 0 <= k < |chunks| ==> FillsBucket(chunks[k], done[k]))
    && |ns| == SampleTotal(done)
    && (done != [] ==> |ns| > 0)
    && NoDuplicates(ns)
    && (forall i :: 0 <= i < |ns| ==> MIN_N <= ns[i] < baseN)
  }

  /** Appending one bucket's sample and moving `baseN` to its limit keeps the loop state. */
  lemma LoopStep(grow: int -> int, done: seq<Bucket>, chunks: seq<seq<int>>, ns: seq<int>, baseN: int, chunk: seq<int>)
    requires GrowthOk(grow)
    requires LoopState(grow, done, chunks, ns, baseN)
    requires baseN < MAX_N
    requires FillsBucket(chunk, Bucket(baseN, grow(baseN)))
    ensures LoopState(grow, done + [Bucket(baseN, grow(baseN))], chunks + [chunk], ns + chunk, grow(baseN))
  {
    var b := Bucket(baseN, grow(baseN));
    AppendAboveKeepsDistinct(ns, chunk, baseN);
    assert BucketsFrom(grow, baseN) == [b] + BucketsFrom(grow, grow(baseN));
    assert (chunks + [chunk])[..|chunks|] == chunks;
    assert (done + [b])[..|done|] == done;
    assert (done + [b]) + BucketsFrom(grow, grow(baseN)) == done + BucketsFrom(grow, baseN);
    var chunks', done' := chunks + [chunk], done + [b];
    forall k | 0 <= k < |chunks'| ensures FillsBucket(chunks'[k], done'[k]) {
      if k < |chunks| {
        assert chunks'[k] == chunks[k] && done'[k] == done[k];
      }
    }
    assert 0 < Quota(b);
  }

  /** At the loop's exit every bucket is done, and `ns` has all the properties the method promises. */
  lemma LoopExit(grow: int -> int, done: seq<Bucket>, chunks: seq<seq<int>>, ns: seq<int>, baseN: int)
    requires GrowthOk(grow)
    requires LoopState(grow, done, chunks, ns, baseN)
    requires MAX_N <= baseN
    ensures |chunks| == |Buckets(grow)| && ns == Flatten(chunks)
    ensures forall k :: 0 <= k < |chunks| ==> FillsBucket(chunks[k], Buckets(grow)[k])
    ensures |ns| == SampleTotal(Buckets(grow)) && |ns| > 0
    ensures NoDuplicates(ns)
    ensures forall i :: 0 <= i < |ns| ==> MIN_N <= ns[i] < LastLimit(grow)
  {
    assert done == Buckets(grow);
  }

  /** What `ns.addAll(s)` appends: the dense list as it is, or the hash set's elements each once. */
  ghost predicate Appends(chunk: seq<int>, s: Selection) {
    match s
    case Dense(list) => chunk == list
    case Sampled(hashSet) => NoDuplicates(chunk) && |chunk| == |hashSet| && (forall x :: x in chunk <==> x in hashSet)
  }

  /**
   * One iteration's `ns.addAll(generateRandomSelection(1000, baseN, nLimit))`: the
   * values appended for the bucket [baseN, nLimit), in the order `addAll` sees them.
   * They are the selection made from the generator's pending draws, which lose
   * exactly the draws that selection used.
   */
  method BucketSample(rng: RepeatableRandom, baseN: int32, nLimit: int32) returns (r: Result<seq<int>>)
    requires 0 <= baseN < nLimit
    modifies rng
    ensures var s := Selected(old(rng.pending), SAMPLE_SIZE, baseN, nLimit);
      && (r.Thrown? <==> s.Thrown?)
      && (r.Ok? ==> Appends(r.value, s.value))
      && (r.Ok? ==> rng.pending == old(rng.pending)[DrawsUsed(old(rng.pending), SAMPLE_SIZE, baseN, nLimit)..])
    ensures r.Thrown? ==> r.exception == DrawsExhausted
    ensures r.Ok? ==> FillsBucket(r.value, Bucket(baseN, nLimit))
  {
    ghost var before := rng.pending;
    var selection := GenerateRandomSelection(rng, SAMPLE_SIZE, baseN, nLimit);
    if selection.Thrown? {
      SelectionFailures(before, SAMPLE_SIZE, baseN, nLimit);
      return Thrown(selection.exception);
    }
    SelectionFillsBucket(before, baseN, nLimit);
    match selection.value {
      case Dense(list) =>
        r := Ok(list);
      case Sampled(hashSet) =>
        var chunk := IterationOrder(hashSet);
        forall i | 0 <= i < |chunk| ensures chunk[i] in hashSet {
          assert chunk[i] in chunk;
        }
        r := Ok(chunk);
    }
  }

  /** The selections the bucket loop makes, one per bucket in order, and the draws left after them. */
  datatype Sampling = Sampling(selections: seq<Selection>, rest: seq<nat>)

  /**
   * The selections of the buckets from `base` on, all made from one generator: each
   * bucket's selection draws from what the previous buckets left.
   */
  function SelectAll(grow: int -> int, base: int, pending: seq<nat>): (r: Result<Sampling>)
    requires GrowthOk(grow) && MIN_N <= base
    ensures r.Ok? ==> |r.value.selections| == |BucketsFrom(grow, base)|
    ensures r.Ok? ==> |r.value.rest| <= |pending|
    decreases MAX_N - base
  {
    if base >= MAX_N then Ok(Sampling([], pending))
    else
      var s := Selected(pending, SAMPLE_SIZE, base as int32, grow(base) as int32);
      if s.Thrown? then Thrown(s.exception)
      else
        var next := SelectAll(grow, grow(base), pending[DrawsUsed(pending, SAMPLE_SIZE, base as int32, grow(base) as int32)..]);
        if next.Ok? then Ok(Sampling([s.value] + next.value.selections, next.value.rest)) else next
  }

  /** The draws left after all buckets are a suffix of the generator's draws: the loop consumes a prefix. */
  lemma {:induction false} SelectAllConsumesPrefix(grow: int -> int, base: int, pending: seq<nat>)
    requires GrowthOk(grow) && MIN_N <= base
    requires SelectAll(grow, base, pending).Ok?
    ensures var a := SelectAll(grow, base, pending).value;
      pending == pending[..|pending| - |a.rest|] + a.rest
    decreases MAX_N - base
  {
    if base < MAX_N {
      var used := DrawsUsed(pending, SAMPLE_SIZE, base as int32, grow(base) as int32);
      var p' := pending[used..];
      SelectAllConsumesPrefix(grow, grow(base), p');
      var rest := SelectAll(grow, base, pending).value.rest;
      assert rest == SelectAll(grow, grow(base), p').value.rest;
      assert p' == p'[..|p'| - |rest|] + rest;
      assert pending[..|pending| - |rest|] == pending[..used] + p'[..|p'| - |rest|];
    }
  }

  /** `r` with the selections `sels` of earlier buckets put in front. */
  function Prepend(sels: seq<Selection>, r: Result<Sampling>): Result<Sampling> {
    if r.Ok? then Ok(Sampling(sels + r.value.selections, r.value.rest)) else r
  }

  /** One bucket's successful selection moves it from the remaining sampling to the done ones. */
  lemma SelectAllStep(grow: int -> int, base: int, pending: seq<nat>, sels: seq<Selection>)
    requires GrowthOk(grow) && MIN_N <= base < MAX_N
    requires Selected(pending, SAMPLE_SIZE, base as int32, grow(base) as int32).Ok?
    ensures var s := Selected(pending, SAMPLE_SIZE, base as int32, grow(base) as int32);
      var used := DrawsUsed(pending, SAMPLE_SIZE, base as int32, grow(base) as int32);
      Prepend(sels, SelectAll(grow, base, pending)) == Prepend(sels + [s.value], SelectAll(grow, grow(base), pending[used..]))
  {
    var s := Selected(pending, SAMPLE_SIZE, base as int32, grow(base) as int32);
    var used := DrawsUsed(pending, SAMPLE_SIZE, base as int32, grow(base) as int32);
    var next := SelectAll(grow, grow(base), pending[used..]);
    if next.Ok? {
      assert sels + ([s.value] + next.value.selections) == (sels + [s.value]) + next.value.selections;
    }
  }

  /**
   * How the bucket loop stands with the generator after the buckets before `baseN`:
   * it took `consumed` from the `initial` draws, `pending` are left, each appended
   * sample lists its selection, and the selections of the remaining buckets
   * complete those made so far to the selections of the whole loop.
   */
  ghost predicate DrawState(grow: int -> int, initial: seq<nat>, consumed: seq<nat>, pending: seq<nat>,
                            sels: seq<Selection>, chunks: seq<seq<int>>, baseN: int)
    requires GrowthOk(grow)
  {
    && MIN_N <= baseN
    && initial == consumed + pending
    && |sels| == |chunks|
    && (forall k :: 0 <= k < |chunks| ==> Appends(chunks[k], sels[k]))
    && Prepend(sels, SelectAll(grow, baseN, pending)) == SelectAll(grow, MIN_N, initial)
  }

  /** Before the first bucket nothing is drawn and nothing is selected. */
  lemma DrawStart(grow: int -> int, initial: seq<nat>)
    requires GrowthOk(grow)
    ensures DrawState(grow, initial, [], initial, [], [], MIN_N)
  {
    var a := SelectAll(grow, MIN_N, initial);
    if a.Ok? {
      assert [] + a.value.selections == a.value.selections;
    }
  }

  /** A bucket whose selection fails makes the whole loop's selection fail. */
  lemma DrawThrown(grow: int -> int, initial: seq<nat>, consumed: seq<nat>, pending: seq<nat>,
                   sels: seq<Selection>, chunks: seq<seq<int>>, baseN: int)
    requires GrowthOk(grow) && DrawState(grow, initial, consumed, pending, sels, chunks, baseN)
    requires baseN < MAX_N
    requires Selected(pending, SAMPLE_SIZE, baseN as int32, grow(baseN) as int32).Thrown?
    ensures SelectAll(grow, MIN_N, initial).Thrown?
  {
  }

  /** A bucket whose selection succeeds and whose sample lists it keeps the draw state. */
  lemma DrawStep(grow: int -> int, initial: seq<nat>, consumed: seq<nat>, pending: seq<nat>,
                 sels: seq<Selection>, chunks: seq<seq<int>>, baseN: int, chunk: seq<int>)
    requires GrowthOk(grow) && DrawState(grow, initial, consumed, pending, sels, chunks, baseN)
    requires baseN < MAX_N
    requires Selected(pending, SAMPLE_SIZE, baseN as int32, grow(baseN) as int32).Ok?
    requires Appends(chunk, Selected(pending, SAMPLE_SIZE, baseN as int32, grow(baseN) as int32).value)
    ensures var used := DrawsUsed(pending, SAMPLE_SIZE, baseN as int32, grow(baseN) as int32);
      DrawState(grow, initial, consumed + pending[..used], pending[used..],
                sels + [Selected(pending, SAMPLE_SIZE, baseN as int32, grow(baseN) as int32).value],
                chunks + [chunk], grow(baseN))
  {
    var used := DrawsUsed(pending, SAMPLE_SIZE, baseN as int32, grow(baseN) as int32);
    var sels' := sels + [Selected(pending, SAMPLE_SIZE, baseN as int32, grow(baseN) as int32).value];
    var chunks' := chunks + [chunk];
    SelectAllStep(grow, baseN, pending, sels);
    assert pending == pending[..used] + pending[used..];
    forall k | 0 <= k < |chunks'| ensures Appends(chunks'[k], sels'[k]) {
      if k < |chunks| {
        assert chunks'[k] == chunks[k] && sels'[k] == sels[k];
      }
    }
  }

  /** At the loop's exit the selections made are those of the whole loop, and `pending` is what it left. */
  lemma DrawExit(grow: int -> int, initial: seq<nat>, consumed: seq<nat>, pending: seq<nat>,
                 sels: seq<Selection>, chunks: seq<seq<int>>, baseN: int)
    requires GrowthOk(grow) && DrawState(grow, initial, consumed, pending, sels, chunks, baseN)
    requires MAX_N <= baseN
    ensures SelectAll(grow, MIN_N, initial) == Ok(Sampling(sels, pending))
  {
    assert sels + [] == sels;
  }

  /**
   * Lines 48-56 of `estimateMeanError`: the bucket loop that fills `ns`, drawing from
   * `rng`. `grow` is the growth step `(int) (baseN * N_EXP_BASE)`; `chunks` are the
   * per-bucket samples in the order they were appended, and `consumed` the draws
   * the whole loop took from the generator, in order.
   */
  method CollectTrialCounts(rng: RepeatableRandom, grow: int -> int)
    returns (r: Result<seq<int>>, ghost chunks: seq<seq<int>>, ghost consumed: seq<nat>)
    requires GrowthOk(grow)
    modifies rng
    ensures var a := SelectAll(grow, MIN_N, old(rng.pending));
      && (r.Ok? <==> a.Ok?)
      && (r.Ok? ==> |chunks| == |a.value.selections| && rng.pending == a.value.rest)
      && (r.Ok? ==> forall k :: 0 <= k < |chunks| ==> Appends(chunks[k], a.value.selections[k]))
    ensures r.Ok? ==> old(rng.pending) == consumed + rng.pending
    ensures r.Thrown? ==> r.exception == DrawsExhausted
    ensures r.Ok? ==> |chunks| == |Buckets(grow)| && r.value == Flatten(chunks)
    ensures r.Ok? ==> forall k :: 0 <= k < |chunks| ==> FillsBucket(chunks[k], Buckets(grow)[k])
    ensures r.Ok? ==> |r.value| == SampleTotal(Buckets(grow)) && |r.value| > 0
    ensures r.Ok? ==> NoDuplicates(r.value)
    ensures r.Ok? ==> forall i :: 0 <= i < |r.value| ==> MIN_N <= r.value[i] < LastLimit(grow)
  {
    var ns: seq<int> := [];
    ghost var done: seq<Bucket> := [];
    ghost var initial := rng.pending;
    ghost var sels: seq<Selection> := [];
    chunks := [];
    consumed := [];
    var baseN: int32 := MIN_N;
    DrawStart(grow, initial);
    while baseN < MAX_N
      invariant LoopState(grow, done, chunks, ns, baseN)
      invariant DrawState(grow, initial, consumed, rng.pending, sels, chunks, baseN)
      decreases MAX_N - baseN
    {
      var nLimit: int32 := grow(baseN);
      ghost var before := rng.pending;
      var chunk := BucketSample(rng, baseN, nLimit);
      if chunk.Thrown? {
        DrawThrown(grow, initial, consumed, before, sels, chunks, baseN);
        return Thrown(chunk.exception), chunks, consumed;
      }
      ghost var s := Selected(before, SAMPLE_SIZE, baseN, nLimit);
      ghost var used := DrawsUsed(before, SAMPLE_SIZE, baseN, nLimit);
      DrawStep(grow, initial, consumed, before, sels, chunks, baseN, chunk.value);
      LoopStep(grow, done, chunks, ns, baseN, chunk.value);
      consumed := consumed + before[..used];
      sels := sels + [s.value];
      ns := ns + chunk.value;
      chunks := chunks + [chunk.value];
      done := done + [Bucket(baseN, nLimit)];
      baseN := grow(baseN);
    }
    LoopExit(grow, done, chunks, ns, baseN);
    DrawExit(grow, initial, consumed, rng.pending, sels, chunks, baseN);
    r := Ok(ns);
  }

  /** The first bucket of the real growth step is [100000, 101000): exactly 1000 wide, so enumerated densely. */
  lemma FirstBucketIsDense()
    ensures GrowthOk(TruncatedGrowth)
    ensures Buckets(TruncatedGrowth)[0] == Bucket(100_000, 101_000)
    ensures Quota(Buckets(TruncatedGrowth)[0]) == SAMPLE_SIZE as int
  {
    TruncatedGrowthOk();
    assert Buckets(TruncatedGrowth) == [Bucket(100_000, 101_000)] + BucketsFrom(TruncatedGrowth, 101_000);
  }
}
