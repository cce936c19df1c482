/** Small shared vocabulary of the model. */
module Common {
  /** A value that may be absent: JavaScript's `null`/`undefined`. */
  datatype Option<T> = None | Some(value: T)

  /**
   * A reading of `Date.now()`: milliseconds since the epoch. The application
   * runs after 1970, so every reading is positive; this makes the source's
   * truthiness tests on timestamps (`startTime || undefined`) plain presence
   * tests.
   */
  type Millis = t: int | t > 0 witness 1

  function Max(a: int, b: int): (r: int)
    ensures r >= a && r >= b && (r == a || r == b)
  {
    if a >= b then a else b
  }
}
