/** Option and Result, standing for JavaScript's `undefined`/`{}` results and thrown errors. */
module Wrappers {

  datatype Option<+T> = None | Some(value: T)

  datatype Result<+T, +E> = Ok(value: T) | Err(error: E)

  /** The errors the core can throw: a `TypeError` from reading a property of `undefined`/`null`
      (destructuring a failed match, `undefined.pop()`), or an explicit `throw new Error(...)`. */
  datatype JsError = TypeError | ThrownError(message: string)
}
