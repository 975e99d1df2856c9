/** The failure-compatible option and result types every component uses. */
module Wrappers {

  datatype Option<+T> = None | Some(value: T) {
    /** The value, or a default when there is none (JavaScript's `??`). */
    function GetOr(default: T): T {
      if Some? then value else default
    }

    /** This value if present, otherwise the other one (`??` between two optional fields). */
    function Or(other: Option<T>): Option<T> {
      if Some? then this else other
    }
  }

  /** A returned value, or the error the source throws. */
  datatype Result<+T, +E> = Success(value: T) | Failure(error: E) {
    predicate IsFailure() {
      Failure?
    }

    /** This result, with its error reported as another component reports it. */
    function MapError<F>(report: E -> F): Result<T, F> {
      match this
      case Success(v) => Success(v)
      case Failure(e) => Failure(report(e))
    }

    function PropagateFailure<U>(): Result<U, E>
      requires Failure?
    {
      Failure(error)
    }

    function Extract(): T
      requires Success?
    {
      value
    }
  }

  /** A check that either passes or throws. */
  function Need<E>(condition: bool, error: E): Result<(), E> {
    if condition then Success(()) else Failure(error)
  }
}
