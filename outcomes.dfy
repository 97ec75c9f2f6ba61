/** Null references and thrown exceptions of the judgment engine, as values. */
module Outcomes {

  /** A reference that may be null (`string?`, `IList<T>?`). */
  datatype Option<+T> = None | Some(value: T)

  /**
   * The exceptions the model represents. The null references it leaves out (a null list,
   * text or entry) would raise others.
   */
  datatype Error =
    /** InvalidOperationException from `First()` or `Last()` on an empty sequence */
    | SequenceContainsNoElements

  /** A value, or the exception thrown while computing it. */
  datatype Result<+T> = Ok(value: T) | Failure(error: Error)

  /** Two string computations done left to right and concatenated: the first exception wins. */
  function Append(left: Result<string>, right: Result<string>): Result<string>
  {
    match left
    case Failure(e) => Failure(e)
    case Ok(l) =>
      match right
      case Failure(e) => Failure(e)
      case Ok(r) => Ok(l + r)
  }
}
