/**
  The pipeline's error type (src/error.rs) and the wrapper types every
  fallible operation of the model returns.
*/
module Errors {

  datatype Option<T> = None | Some(value: T)

  /** One constructor per `PipelineError` variant; the wrapped source errors
      of `FileOperation`, `Io`, `Serialization` and `Git` are kept as their
      rendered message. */
  datatype PipelineError =
    | ConfigError(message: string)
    | RepositorySyncError(message: string)
    | FileOperationError(path: string, cause: string)
    | MarkdownParseError(file: string, message: string)
    | DatabaseError(message: string)
    | ExtractionError(message: string)
    | ValidationError(message: string)
    | IoError(message: string)
    | SerializationError(message: string)
    | GitError(message: string)

  /** `Result<T, PipelineError>`. */
  datatype Result<T> = Ok(value: T) | Err(error: PipelineError)

  /** `Result<(), PipelineError>`. */
  datatype Outcome = Pass | Fail(error: PipelineError)

  function Min(a: int, b: int): int { if a <= b then a else b }

  function Max(a: int, b: int): int { if a >= b then a else b }
}
