/** Failure-compatible wrappers shared by every module of the model.

    The pipeline is written in Python, where failures travel as exceptions.
    The model turns each raising call into a function returning `Result`,
    with the exception class carried in `Exc`.
 */
module Wrappers {

  datatype Option<+T> = None | Some(value: T) {

    /** Returns the wrapped value, or `default` when there is none
        (Python's `d.get(key, default)` and `os.getenv(name, default)`). */
    function GetOr(default: T): T {
      match this
      case Some(v) => v
      case None => default
    }
  }

  /** The Python exception classes the modelled code raises, re-raises or catches. */
  datatype Exc =
    | ValueError          // raised explicitly by validation code and the factories
    | FileNotFoundError   // missing data file, missing local file
    | ImportError         // an optional library (SDK, PyYAML) is not installed
    | NameError           // a name used outside the scope that imported it
    | KeyError            // a missing column or key
    | TypeError           // a call with a wrong argument list
    | OSError             // filesystem failure (makedirs, open for writing)
    | SdkError            // any exception thrown by a remote storage SDK

  datatype Result<+T> = Ok(value: T) | Err(exc: Exc) {

    predicate IsFailure() {
      Err?
    }

    function PropagateFailure<U>(): Result<U>
      requires Err?
    {
      Err(exc)
    }

    function Extract(): T
      requires Ok?
    {
      value
    }
  }
}
