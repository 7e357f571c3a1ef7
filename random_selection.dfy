/**
 * `generateRandomSelection(sampleSize, origin, bound)`: distinct integers of the
 * half-open range [origin, bound). A range of at most `sampleSize` integers is
 * returned whole, in ascending order; a wider one is sampled by drawing from a
 * shared, seeded generator into a hash set until the set holds `sampleSize` values.
 */
module RandomSelection {
  import opened Throws
  import opened JavaInt

  /** What `generateRandomSelection` returns: the dense list, or the sampled hash set. */
  datatype Selection = Dense(list: seq<int>) | Sampled(hashSet: set<int>)

  /** The outcome of the rejection loop: the selected set and how many draws it consumed. */
  datatype Drawn = Drawn(selected: set<int>, used: nat)

  predicate NoDuplicates(xs: seq<int>) {
    forall i, j :: 0 <= i < j < |xs| ==> xs[i] != xs[j]
  }

  /** `IntStream.range(lo, hi)` collected into a list. */
  function Range(lo: int, hi: int): (r: seq<int>)
    ensures |r| == if lo < hi then hi - lo else 0
    ensures forall i :: 0 <= i < |r| ==> r[i] == lo + i
    decreases hi - lo
  {
    if hi <= lo then [] else [lo] + Range(lo + 1, hi)
  }

  /** The range list holds exactly the integers of [lo, hi), ascending and without repeats. */
  lemma RangeExactly(lo: int, hi: int)
    ensures forall x :: x in Range(lo, hi) <==> lo <= x < hi
    ensures forall i, j :: 0 <= i < j < |Range(lo, hi)| ==> Range(lo, hi)[i] < Range(lo, hi)[j]
    ensures NoDuplicates(Range(lo, hi))
  {
    var r := Range(lo, hi);
    forall x | lo <= x < hi ensures x in r {
      assert r[x - lo] == x;
    }
  }

  /** One bounded draw: a raw generator output reduced into [origin, bound). */
  function Draw(raw: nat, origin: int, bound: int): (r: int)
    requires origin < bound
    ensures origin <= r < bound
  {
    origin + raw % (bound - origin)
  }

  /** The values a sequence of raw outputs yields when each is drawn into [origin, bound). */
  function DrawSet(raws: seq<nat>, origin: int, bound: int): (r: set<int>)
    requires raws == [] || origin < bound
    ensures forall x :: x in r ==> origin <= x < bound
    ensures |r| <= |raws|
  {
    if raws == [] then {} else {Draw(raws[0], origin, bound)} + DrawSet(raws[1..], origin, bound)
  }

  /**
   * The generator shared by all calls (the seeded `SplittableRandom`). Its internal
   * state is represented by the raw outputs it has still to produce, in order.
   */
  class RepeatableRandom {
    var pending: seq<nat>

    constructor (draws: seq<nat>)
      ensures pending == draws
    {
      pending := draws;
    }

    /** `nextInt(origin, bound)`: the next draw, reduced into [origin, bound). */
    method NextInt(origin: int, bound: int) returns (r: Result<int>)
      modifies this
      ensures origin >= bound ==> r == Thrown(IllegalArgumentException) && pending == old(pending)
      ensures origin < bound && old(pending) == [] ==> r == Thrown(DrawsExhausted) && pending == []
      ensures origin < bound && old(pending) != [] ==>
        r == Ok(Draw(old(pending)[0], origin, bound)) && pending == old(pending)[1..]
      ensures r.Ok? ==> origin <= r.value < bound
    {
      if origin >= bound {
        return Thrown(IllegalArgumentException);
      }
      if pending == [] {
        return Thrown(DrawsExhausted);
      }
      r := Ok(Draw(pending[0], origin, bound));
      pending := pending[1..];
    }
  }

  /**
   * The rejection loop `while (selected.size() < sampleSize) selected.add(nextInt(origin, bound))`
   * run from `selected` on the raw outputs `raws`.
   */
  function Fill(selected: set<int>, raws: seq<nat>, sampleSize: int, origin: int, bound: int): (r: Result<Drawn>)
    ensures r.Ok? ==> selected <= r.value.selected && r.value.used <= |raws|
    ensures r.Ok? ==> forall x :: x in r.value.selected && x !in selected ==> origin <= x < bound
    ensures r.Thrown? ==> r.exception != ArithmeticException
    decreases |raws|
  {
    if |selected| >= sampleSize then Ok(Drawn(selected, 0))
    else if origin >= bound then Thrown(IllegalArgumentException)
    else if raws == [] then Thrown(DrawsExhausted)
    else
      var rest := Fill(selected + {Draw(raws[0], origin, bound)}, raws[1..], sampleSize, origin, bound);
      if rest.Ok? then Ok(Drawn(rest.value.selected, rest.value.used + 1)) else rest
  }

  /** `r` with `k` more draws counted as used. */
  function Shift(r: Result<Drawn>, k: nat): Result<Drawn> {
    if r.Ok? then Ok(Drawn(r.value.selected, r.value.used + k)) else r
  }

  /**
   * A finished loop consumed a prefix of the draws, kept everything it started with,
   * and holds max(|selected|, sampleSize) values: it grows by at most one per draw,
   * so it never overshoots `sampleSize`.
   */
  lemma {:induction false} FillSize(selected: set<int>, raws: seq<nat>, sampleSize: int, origin: int, bound: int)
    requires Fill(selected, raws, sampleSize, origin, bound).Ok?
    ensures Fill(selected, raws, sampleSize, origin, bound).value.used <= |raws|
    ensures selected <= Fill(selected, raws, sampleSize, origin, bound).value.selected
    ensures |Fill(selected, raws, sampleSize, origin, bound).value.selected|
         == if |selected| < sampleSize then sampleSize else |selected|
    decreases |raws|
  {
    if |selected| < sampleSize {
      var next := selected + {Draw(raws[0], origin, bound)};
      assert |next| <= |selected| + 1;
      FillSize(next, raws[1..], sampleSize, origin, bound);
    }
  }

  /** A finished loop holds what it started with plus exactly the values drawn from the consumed prefix. */
  lemma {:induction false} FillContents(selected: set<int>, raws: seq<nat>, sampleSize: int, origin: int, bound: int)
    requires Fill(selected, raws, sampleSize, origin, bound).Ok?
    ensures var d := Fill(selected, raws, sampleSize, origin, bound).value;
      && d.used <= |raws|
      && (d.used == 0 ==> d.selected == selected)
      && (d.used > 0 ==> origin < bound && d.selected == selected + DrawSet(raws[..d.used], origin, bound))
    decreases |raws|
  {
    if |selected| < sampleSize {
      var x := Draw(raws[0], origin, bound);
      FillContents(selected + {x}, raws[1..], sampleSize, origin, bound);
      var d := Fill(selected, raws, sampleSize, origin, bound).value;
      var d' := Fill(selected + {x}, raws[1..], sampleSize, origin, bound).value;
      assert d.selected == d'.selected && d.used == d'.used + 1;
      assert raws[..d.used][1..] == raws[1..][..d'.used];
      assert DrawSet(raws[..d.used], origin, bound) == {x} + DrawSet(raws[1..][..d'.used], origin, bound);
    }
  }

  /** The loop stops at the first draw that fills the set: before that draw it was short. */
  lemma {:induction false} FillStopsWhenFull(selected: set<int>, raws: seq<nat>, sampleSize: int, origin: int, bound: int)
    requires Fill(selected, raws, sampleSize, origin, bound).Ok?
    ensures var d := Fill(selected, raws, sampleSize, origin, bound).value;
      && d.used <= |raws|
      && (d.used > 0 ==> origin < bound && |selected + DrawSet(raws[..d.used - 1], origin, bound)| < sampleSize)
    decreases |raws|
  {
    FillSize(selected, raws, sampleSize, origin, bound);
    if |selected| < sampleSize {
      var x := Draw(raws[0], origin, bound);
      FillStopsWhenFull(selected + {x}, raws[1..], sampleSize, origin, bound);
      var d := Fill(selected, raws, sampleSize, origin, bound).value;
      var d' := Fill(selected + {x}, raws[1..], sampleSize, origin, bound).value;
      if d'.used > 0 {
        assert raws[..d.used - 1][1..] == raws[1..][..d'.used - 1];
        assert DrawSet(raws[..d.used - 1], origin, bound)
            == {x} + DrawSet(raws[1..][..d'.used - 1], origin, bound);
        assert selected + DrawSet(raws[..d.used - 1], origin, bound)
            == (selected + {x}) + DrawSet(raws[1..][..d'.used - 1], origin, bound);
      } else {
        assert raws[..d.used - 1] == [];
      }
    }
  }

  /** The loop throws only when it has to draw: `IllegalArgumentException` on an empty range, otherwise exhaustion. */
  lemma {:induction false} FillThrows(selected: set<int>, raws: seq<nat>, sampleSize: int, origin: int, bound: int)
    requires Fill(selected, raws, sampleSize, origin, bound).Thrown?
    ensures |selected| < sampleSize
    ensures Fill(selected, raws, sampleSize, origin, bound).exception
         == if origin >= bound then IllegalArgumentException else DrawsExhausted
    decreases |raws|
  {
    if origin < bound && raws != [] {
      FillThrows(selected + {Draw(raws[0], origin, bound)}, raws[1..], sampleSize, origin, bound);
    }
  }

  /** On a non-empty range the loop runs out of draws exactly when all of them together cannot fill the set. */
  lemma {:induction false} FillExhaustedIff(selected: set<int>, raws: seq<nat>, sampleSize: int, origin: int, bound: int)
    requires origin < bound
    ensures Fill(selected, raws, sampleSize, origin, bound).Thrown?
        <==> |selected + DrawSet(raws, origin, bound)| < sampleSize
    decreases |raws|
  {
    var all := selected + DrawSet(raws, origin, bound);
    assert |selected| <= |all| by {
      assert all == selected + (all - selected);
    }
    if |selected| < sampleSize && raws != [] {
      var next := selected + {Draw(raws[0], origin, bound)};
      FillExhaustedIff(next, raws[1..], sampleSize, origin, bound);
      assert all == next + DrawSet(raws[1..], origin, bound);
    }
  }

  /**
   * Java's branch test `bound - origin <= sampleSize`, evaluated in `int` arithmetic:
   * it compares the true width whenever that fits in an `int`, and a width above
   * `INT_MAX` wraps to `width - 2^32`, a negative number.
   */
  predicate TakesDenseBranch(sampleSize: int32, origin: int32, bound: int32): (r: bool)
    ensures IsInt32(bound - origin) ==> (r <==> bound - origin <= sampleSize)
    ensures bound - origin > INT_MAX ==> (r <==> bound - origin - INT_MODULUS <= sampleSize)
  {
    Sub32(bound, origin) <= sampleSize
  }

  /** For non-negative bounds the `int` subtraction cannot wrap, so the test compares true widths. */
  lemma DenseBranchForNaturalBounds(sampleSize: int32, origin: int32, bound: int32)
    requires 0 <= origin && 0 <= bound
    ensures TakesDenseBranch(sampleSize, origin, bound) <==> bound - origin <= sampleSize
  {
  }

  /** A range wider than `INT_MAX` wraps the test to a negative width and is enumerated densely. */
  lemma WideRangeTakesDenseBranch()
    ensures TakesDenseBranch(1000, -1, INT_MAX as int32)
    ensures INT_MAX - (-1) > 1000
  {
  }

  /** Every range wider than `INT_MAX` is enumerated densely for any sample size of at least -1. */
  lemma WideRangesTakeDenseBranch(sampleSize: int32, origin: int32, bound: int32)
    requires bound - origin > INT_MAX && -1 <= sampleSize
    ensures TakesDenseBranch(sampleSize, origin, bound)
  {
  }

  /** The values a selection holds. */
  function Elements(s: Selection): set<int> {
    match s
    case Dense(list) => set x | x in list
    case Sampled(hashSet) => hashSet
  }

  /**
   * What `generateRandomSelection` computes from the generator's pending draws: the
   * dense list exactly when the `int` test holds, and in either branch only values
   * of [origin, bound). The sampling branch never throws `ArithmeticException`.
   */
  function Selected(pending: seq<nat>, sampleSize: int32, origin: int32, bound: int32): (r: Result<Selection>)
    ensures r.Ok? ==> (r.value.Dense? <==> TakesDenseBranch(sampleSize, origin, bound))
    ensures r.Ok? ==> forall x :: x in Elements(r.value) ==> origin <= x < bound
    ensures r.Thrown? ==> !TakesDenseBranch(sampleSize, origin, bound) && r.exception != ArithmeticException
  {
    if TakesDenseBranch(sampleSize, origin, bound) then Ok(Dense(Range(origin, bound)))
    else
      var f := Fill({}, pending, sampleSize, origin, bound);
      if f.Ok? then Ok(Sampled(f.value.selected)) else Thrown(f.exception)
  }

  /** How many of the pending draws `generateRandomSelection` consumes when it succeeds. */
  function DrawsUsed(pending: seq<nat>, sampleSize: int32, origin: int32, bound: int32): (r: nat)
    ensures r <= |pending|
  {
    if TakesDenseBranch(sampleSize, origin, bound) then 0
    else
      var f := Fill({}, pending, sampleSize, origin, bound);
      if f.Ok? then f.value.used else 0
  }

  /** `generateRandomSelection(sampleSize, origin, bound)` drawing from `rng`. */
  method GenerateRandomSelection(rng: RepeatableRandom, sampleSize: int32, origin: int32, bound: int32)
    returns (r: Result<Selection>)
    modifies rng
    ensures r == Selected(old(rng.pending), sampleSize, origin, bound)
    ensures r.Ok? ==> DrawsUsed(old(rng.pending), sampleSize, origin, bound) <= |old(rng.pending)|
    ensures r.Ok? ==> rng.pending == old(rng.pending)[DrawsUsed(old(rng.pending), sampleSize, origin, bound)..]
    ensures r == Thrown(IllegalArgumentException) ==> rng.pending == old(rng.pending)
    ensures r == Thrown(DrawsExhausted) ==> rng.pending == []
  {
    if Sub32(bound, origin) <= sampleSize {
      return Ok(Dense(Range(origin, bound)));
    }
    ghost var initial := rng.pending;
    ghost var used: nat := 0;
    var selected: set<int> := {};
    while |selected| < sampleSize
      invariant used <= |initial| && rng.pending == initial[used..]
      invariant origin >= bound ==> used == 0
      invariant Shift(Fill(selected, rng.pending, sampleSize, origin, bound), used)
             == Fill({}, initial, sampleSize, origin, bound)
      decreases |rng.pending|
    {
      var x := rng.NextInt(origin, bound);
      if x.Thrown? {
        return Thrown(x.exception);
      }
      selected := selected + {x.value};
      used := used + 1;
    }
    r := Ok(Sampled(selected));
  }

  /**
   * The sampling branch, when it completes, yields exactly `sampleSize` distinct
   * values, all in [origin, bound), all drawn from the generator.
   */
  lemma {:induction false} SampledSelectionIsExact(pending: seq<nat>, sampleSize: int32, origin: int32, bound: int32)
    requires !TakesDenseBranch(sampleSize, origin, bound)
    requires Selected(pending, sampleSize, origin, bound).Ok?
    ensures var s := Selected(pending, sampleSize, origin, bound).value;
      && s.Sampled?
      && |s.hashSet| == (if sampleSize < 0 then 0 else sampleSize)
      && (forall x :: x in s.hashSet ==> origin <= x < bound)
      && DrawsUsed(pending, sampleSize, origin, bound) <= |pending|
      && (bound <= origin ==> s.hashSet == {})
      && (origin < bound ==>
            s.hashSet <= DrawSet(pending[..DrawsUsed(pending, sampleSize, origin, bound)], origin, bound))
  {
    FillSize({}, pending, sampleSize, origin, bound);
    FillContents({}, pending, sampleSize, origin, bound);
  }

  /** The dense branch returns every integer of [origin, bound) once, in ascending order. */
  lemma DenseSelectionIsWholeRange(pending: seq<nat>, sampleSize: int32, origin: int32, bound: int32)
    requires TakesDenseBranch(sampleSize, origin, bound)
    ensures var s := Selected(pending, sampleSize, origin, bound);
      && s.Ok? && s.value.Dense?
      && (forall x :: x in s.value.list <==> origin <= x < bound)
      && (forall i, j :: 0 <= i < j < |s.value.list| ==> s.value.list[i] < s.value.list[j])
      && |s.value.list| == (if origin < bound then bound - origin else 0)
  {
    RangeExactly(origin, bound);
  }

  /**
   * The only failures: `nextInt` on an empty range, which the wrapped `int` test lets
   * through only when `bound <= origin`, and a generator that runs out of given draws
   * before the set is full.
   */
  lemma SelectionFailures(pending: seq<nat>, sampleSize: int32, origin: int32, bound: int32)
    ensures var s := Selected(pending, sampleSize, origin, bound);
      && (s == Thrown(IllegalArgumentException) <==>
            !TakesDenseBranch(sampleSize, origin, bound) && 0 < sampleSize && bound <= origin)
      && (s == Thrown(DrawsExhausted) <==>
            !TakesDenseBranch(sampleSize, origin, bound) && origin < bound
            && |DrawSet(pending, origin, bound)| < sampleSize)
      && (s.Thrown? ==> s.exception != ArithmeticException)
  {
    if !TakesDenseBranch(sampleSize, origin, bound) {
      var f := Fill({}, pending, sampleSize, origin, bound);
      if f.Thrown? {
        FillThrows({}, pending, sampleSize, origin, bound);
      }
      if origin < bound {
        FillExhaustedIff({}, pending, sampleSize, origin, bound);
        assert {} + DrawSet(pending, origin, bound) == DrawSet(pending, origin, bound);
      }
    }
  }

  /** `addAll` of a hash set: its elements in some iteration order, each once. */
  method IterationOrder(s: set<int>) returns (xs: seq<int>)
    ensures |xs| == |s|
    ensures forall x :: x in xs <==> x in s
    ensures NoDuplicates(xs)
  {
    xs := [];
    var rest := s;
    while rest != {}
      invariant rest <= s
      invariant forall x :: x in xs <==> x in s - rest
      invariant |xs| + |rest| == |s|
      invariant NoDuplicates(xs)
      decreases |rest|
    {
      assert exists y :: y in rest by {
        if forall y :: y !in rest {
          assert false;
        }
      }
      var x :| x in rest;
      assert x !in xs;
      xs := xs + [x];
      rest := rest - {x};
    }
  }
}
