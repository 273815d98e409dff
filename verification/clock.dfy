/**
 * The `millis()` clock as an input: every call of a control loop receives
 * the current time, and the times of successive calls never go back (the
 * 49-day wrap-around of `unsigned long` milliseconds is not modelled).
 */
module Clock {

  /** A loop input stamped with the time of the call that receives it. */
  datatype Timed<T> = Timed(value: T, now: nat)

  /** The call times never go back, starting no earlier than `start`. */
  predicate Monotone<T>(start: nat, xs: seq<Timed<T>>)
    decreases |xs|
  {
    |xs| == 0 || (start <= xs[0].now && Monotone(xs[0].now, xs[1..]))
  }

  lemma MonotoneFromEarlier<T>(a: nat, b: nat, xs: seq<Timed<T>>)
    requires a <= b && Monotone(b, xs)
    ensures Monotone(a, xs)
  {
  }
}
