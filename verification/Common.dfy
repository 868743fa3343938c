/** Small types shared by the models. */
module Common {

  datatype Option<T> = None | Some(value: T)

  type byte = x: int | 0 <= x < 256

  /** floatEpsilon and nearlyEqual of controller/ratio_sync.go. */
  const EPSILON: real := 0.000000001

  predicate NearlyEqual(a: real, b: real) {
    if a > b then a - b < EPSILON else b - a < EPSILON
  }
}
