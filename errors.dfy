/** The program's single error kind and the Result/Option wrappers used throughout the model. */
module Errors {

  /** An error is only a human-readable message assembled where the failure happened. */
  datatype ConfigError = ConfigError(message: string)

  /** The outcome of a fallible operation; usable with `:-` like Rust's `?`. */
  datatype Result<+T> = Ok(value: T) | Err(error: ConfigError) {

    predicate IsFailure() {
      Err?
    }

    function PropagateFailure<U>(): Result<U>
      requires Err?
    {
      Err(error)
    }

    function Extract(): T
      requires Ok?
    {
      value
    }
  }

  datatype Option<+T> = None | Some(value: T)
}
