/** Option and Result, used for JavaScript's `undefined`/`null` results and thrown errors. */
module Wrappers {

  /** `None` stands for a missing (null/undefined) value. */
  datatype Option<+T> = None | Some(value: T)

  /** The exceptions the library throws. */
  datatype Error =
    | TypeError(message: string)   // `throw TypeError(...)`
    | IllegalState                 // Richards: `throw new Error("Illegal state")`

  /** A call that either returns a value or throws. */
  datatype Result<+T> = Ok(value: T) | Err(error: Error)
}
