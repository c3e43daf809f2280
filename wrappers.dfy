/** Option and Result values, and the exceptions the cutting-plane core can raise. */
module Wrappers {

  datatype Option<+T> = None | Some(value: T)

  /** The Python exceptions that escape the core, in the order the source can raise them. */
  datatype Error =
    | GdpError            // no active objective on the relaxed BigM model
    | RuntimeError        // adding a "<=" row to a ">=" row
    | ZeroDivisionError   // relative improvement test with a previous objective of 0
    | KeyError(v: nat)    // a surviving variable that has no BigM counterpart

  datatype Result<+T> = Ok(value: T) | Err(error: Error)
}
