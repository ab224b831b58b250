/** Failure-compatible result types shared by the back-end and front-end models. */
module Wrappers {

  /** An optional value: a JSON `null` / missing key, or a present value. */
  datatype Option<+T> = None | Some(value: T)

  /** The outcome of an API call: a value, or the error the endpoint answers with. */
  datatype Result<+T, +E> = Ok(value: T) | Err(error: E)
}
