/** The crate's error taxonomy and the success-or-error wrapper every parsing
    function of this model returns. A `panic!`, `unimplemented!`, failed
    `unwrap` or out-of-range read of the source becomes an `Err` here. */
module Errors {

  /** The variants declared by the `errs!` invocation (their display strings are not modelled). */
  datatype Error =
    | StructureInvalid
    | StyleUndefined
    | OCInvalid
    | OCInvalidParams
    | OCMissingParams

  /** `Result<T>`, the alias for `core::result::Result<T, Error>`. */
  datatype Result<+T> = Ok(value: T) | Err(error: Error) {
    predicate IsFailure() { Err? }

    function PropagateFailure<U>(): Result<U>
      requires Err?
    {
      Err(error)
    }

    function Extract(): T
      requires Ok?
    {
      value
    }
  }

  /** Rust's `Option<T>`. */
  datatype Option<+T> = None | Some(value: T)
}
