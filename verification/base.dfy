/** Failure-carrying wrappers shared by every module of the bus model:
    a Java reference that may be null becomes an `Option`, a call that may
    throw becomes a `Result` (value or exception) or an `Outcome` (normal
    return or exception). */
module Base {

  datatype Option<+T> = None | Some(value: T)

  datatype Result<+R, +E> = Success(value: R) | Failure(error: E) {
    predicate IsFailure() {
      Failure?
    }

    function PropagateFailure<U>(): Result<U, E>
      requires Failure?
    {
      Failure(error)
    }

    function Extract(): R
      requires Success?
    {
      value
    }
  }

  datatype Outcome<+E> = Pass | Fail(error: E)

  /** `s` is a prefix of `t`: `t` is `s` with zero or more elements appended. */
  predicate IsPrefix<T(==)>(s: seq<T>, t: seq<T>) {
    |s| <= |t| && t[..|s|] == s
  }
}
