/**
 * The integer part of `inverseBinomialCdfNormalApproximationError`: the Normal
 * approximation, already rounded to a `long` by `Math.round`, is converted with
 * `Math.toIntExact` and the exact Binomial quantile is subtracted in `int`
 * arithmetic. Both quantiles come from library code and are inputs here.
 */
module ApproximationError {
  import opened Throws
  import opened JavaInt

  /** `Math.toIntExact(x)`: the same value as an `int`, or `ArithmeticException` when it does not fit. */
  function ToIntExact(x: int64): (r: Result<int32>)
    ensures r.Ok? <==> IsInt32(x)
    ensures r.Ok? ==> r.value == x
    ensures r.Thrown? ==> r.exception == ArithmeticException
  {
    if IsInt32(x) then Ok(x as int32) else Thrown(ArithmeticException)
  }

  /**
   * `toIntExact` throws exactly where the narrowing cast `(int) x` would silently
   * change the value, and agrees with the cast everywhere else.
   */
  lemma ToIntExactRefusesToWrap(x: int64)
    ensures ToIntExact(x).Thrown? <==> NarrowToInt(x) != x
    ensures ToIntExact(x).Ok? ==> ToIntExact(x).value == NarrowToInt(x)
  {
  }

  /**
   * `approxNormalResult - binomialResult` with
   * `approxNormalResult = Math.toIntExact(roundedApproximation)`: it fails, with
   * `ArithmeticException`, exactly when the rounded approximation is not an `int`,
   * and otherwise is the true difference modulo 2^32.
   */
  function InverseCdfApproximationError(binomialResult: int32, roundedApproximation: int64): (r: Result<int32>)
    ensures r.Thrown? <==> !IsInt32(roundedApproximation)
    ensures r.Thrown? ==> r.exception == ArithmeticException
    ensures r.Ok? ==> (roundedApproximation - binomialResult - r.value) % INT_MODULUS == 0
  {
    var approxNormalResult := ToIntExact(roundedApproximation);
    if approxNormalResult.Thrown? then Thrown(approxNormalResult.exception)
    else Ok(Sub32(approxNormalResult.value, binomialResult))
  }

  /**
   * Once `toIntExact` succeeds, the error equals the true difference exactly when
   * that difference fits in an `int`: only the conversion is guarded.
   */
  lemma ApproximationErrorSpec(binomialResult: int32, roundedApproximation: int64)
    ensures var r := InverseCdfApproximationError(binomialResult, roundedApproximation);
      r.Ok? ==> (r.value == roundedApproximation - binomialResult <==> IsInt32(roundedApproximation - binomialResult))
  {
  }

  /** Two non-negative quantiles that fit in an `int` give their exact difference: the subtraction cannot wrap. */
  lemma NoWrapForNonNegativeQuantiles(binomialResult: int32, roundedApproximation: int64)
    requires 0 <= binomialResult && 0 <= roundedApproximation <= INT_MAX
    ensures InverseCdfApproximationError(binomialResult, roundedApproximation)
         == Ok(roundedApproximation - binomialResult)
  {
  }

  /** The subtraction itself is unguarded: a negative approximation at the bottom of the range wraps. */
  lemma SubtractionIsUnguarded()
    ensures InverseCdfApproximationError(1, INT_MIN as int64) == Ok(INT_MAX as int32)
    ensures InverseCdfApproximationError(0, INT_MAX as int64 + 1) == Thrown(ArithmeticException)
  {
  }
}
