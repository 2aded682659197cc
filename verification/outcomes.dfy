/** Small failure-carrying datatypes shared by every module of the model. */
module Outcomes {

  /** Rust's `Option<T>`. */
  datatype Option<T> = None | Some(value: T)

  /** Rust's `Result<R, E>`. */
  datatype Result<R, E> = Ok(value: R) | Err(error: E)

  /** The outcome of a step that contains `assert!` or `panic!`: either it
      completes with a new state, or the calling thread panics. */
  datatype Checked<S> = Done(state: S) | Panicked
}
