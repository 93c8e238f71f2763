/** Option and Result values shared by the other modules. */
module Wrappers {

  /** A value that may be missing: a JavaScript `null`/`undefined` is `None`. */
  datatype Option<T> = None | Some(value: T)

  /** The outcome of an operation that may throw: `Err` is a thrown exception
      (a rejected promise), which carries no payload the program looks at. */
  datatype Result<T> = Ok(value: T) | Err
}
