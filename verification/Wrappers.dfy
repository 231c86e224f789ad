/** The result types shared by the models of fallible operations. */
module Wrappers {
  datatype Option<+T> = None | Some(value: T)

  /** The error codes of `absl::Status` that the modelled code returns. */
  datatype Code =
    | InvalidArgument
    | OutOfRange
    | FailedPrecondition
    | AlreadyExists
    | NotFound
    | Internal
    | Cancelled

  datatype Status = Ok | Error(code: Code)

  datatype Result<+T> = Success(value: T) | Failure(code: Code)
}
