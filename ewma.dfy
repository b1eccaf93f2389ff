/**
 * The rate estimator of the monitor. Its decay arithmetic lives in ewma.cc, which is not
 * part of this model: the estimator is a value with an average, and `update(now, delta)` is
 * supplied by the caller of every operation that decays an estimator.
 */
module Ewma {
  /** An estimator: its current smoothed average and the tick of its last update. */
  datatype Estimator = Estimator(avg: int, stamp: int)

  /** `average()`: the current smoothed value, read without side effect. */
  function Average(e: Estimator): int {
    e.avg
  }

  /** `initialize()`: an estimator with a zero average. */
  const Initial: Estimator := Estimator(0, 0)

  /** The shape of `update(now, delta)`: the estimator, the tick `now` and the amount `delta`. */
  type Update = (Estimator, int, int) -> Estimator
}
