/** The Python exceptions the pipeline raises, and a result type that carries them
    in place of raising. */
module Errors {

  /** The exception classes the modelled code raises or lets escape. */
  datatype Error =
    | ValueError(message: string)
    | IndexError(message: string)

  /** Either the value a Python call returns or the exception it raises. */
  datatype Result<T> = Success(value: T) | Failure(error: Error)
}
