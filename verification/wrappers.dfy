/** Optional values, results and the exception kinds the modelled Python code can raise. */
module Wrappers {

  datatype Option<+T> = None | Some(value: T)

  /** The Python exceptions the core raises or lets escape, by class name. */
  datatype Error =
    | KeyError        // a missing dictionary key
    | IndexError      // a list index out of range
    | TypeError       // an unsupported packet discriminator
    | ValueError      // int() of a string without digits
    | RuntimeError    // subscripting the configuration class
    | AttributeError  // a method called on None
    | OpenCvError     // an OpenCV call that rejects its input

  /** The value a call returns, or the exception it raises. */
  datatype Result<+T> = Ok(value: T) | Err(error: Error)

  /** A call that returns nothing, or the exception it raises. */
  datatype Outcome = Pass | Fail(error: Error)
}
