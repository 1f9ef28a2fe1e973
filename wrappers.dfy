/** Failure-compatible result types shared by the model: Java's null becomes
    `None`, and a thrown exception becomes `Err` / `Fail`. */
module Wrappers {

  datatype Option<+T> = None | Some(value: T)

  datatype Result<+R, +E> = Ok(value: R) | Err(error: E)

  datatype Outcome<+E> = Pass | Fail(error: E)
}
