/** Failure-carrying result types shared by the whole model: the source reports
    every failure of a command as an early return with a user-facing message,
    which the model turns into a typed `Err` value. */
module Basics {

  /** An optional value: a nullable column, or a lookup that may find nothing. */
  datatype Option<+T> = None | Some(value: T)

  /** The outcome of an operation that can fail with a typed error. */
  datatype Result<+T, +E> = Ok(value: T) | Err(error: E)

  /** Python's `x or ""` on an optional string argument: a missing value is
      stored as the empty string. */
  function OrEmpty(s: Option<string>): (r: string)
    ensures s.Some? ==> r == s.value
    ensures s.None? ==> r == ""
  {
    match s
    case Some(v) => v
    case None => ""
  }

  function Min(a: nat, b: nat): nat {
    if a <= b then a else b
  }
}
