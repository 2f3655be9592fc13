/**
 * Option and Result: what the C# code expresses with `null` and with a value-or-diagnostic return;
 * Outcome: a computation that returns or throws.
 */
module Wrappers {

  /** A value that may be absent (C# `null`). */
  datatype Option<+T> = None | Some(value: T)

  /** A value or an error (a `null` return that reports a diagnostic). */
  datatype Result<+T, +E> = Success(value: T) | Failure(error: E)

  /**
   * The exceptions the modelled code can raise: a null dereference, `First()` on an empty sequence,
   * a list index outside the list, and an argument the callee refuses (a repeated hint name).
   */
  datatype Exception = NullReferenceException | InvalidOperationException | ArgumentOutOfRangeException | ArgumentException

  /** A C# computation that either returns a value or throws. */
  datatype Outcome<+T> = Returned(value: T) | Threw(exception: Exception)
}
