/** Failure-carrying result types shared by every module of the model.
    `PyError` names the Python exception a source function raises on a
    path the model keeps as an error value. */
module Wrappers {

  datatype Option<+T> = None | Some(value: T)

  /** The Python exceptions that the modelled code can raise. */
  datatype PyError =
    | ValueError       // int()/ZZ() on a malformed string, list.remove of a missing item
    | IndexError       // indexing past the end of a list
    | KeyError         // dictionary lookup of a missing key
    | ZeroDivisionError
    | AssertionError   // a failed `assert` in the source
    | RuntimeError     // raised explicitly, or by an external tool
    | TypeError        // Sage ZZ()/Integer() on a malformed string

  datatype Result<+T> = Ok(value: T) | Err(error: PyError)
}
