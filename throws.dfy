/** The exceptions the modelled code can raise, and a result type that carries them. */
module Throws {

  datatype Exception =
    | IllegalArgumentException  // SplittableRandom.nextInt(origin, bound) with origin >= bound
    | ArithmeticException       // Math.toIntExact on a long outside the int range
    | DrawsExhausted            // the finite prefix of random draws given to the model ran out

  datatype Result<T> = Ok(value: T) | Thrown(exception: Exception)
}
