/** The exceptions the Python code can raise on the paths modelled here, and
    the Result type that carries either a value or such an exception. */
module Failures {

  datatype Failure =
    | IndexError(detail: string)   // a list or string index out of range
    | KeyError(key: string)        // a missing dictionary key
    | ValueError(text: string)     // int() of a malformed token, max() of nothing
    | NameError(name: string)      // a local variable read before assignment
    | IOError(path: string)        // a cache file that is not there

  datatype Result<T> = Ok(value: T) | Err(failure: Failure) {
    predicate IsFailure() { Err? }
    function PropagateFailure<U>(): Result<U>
      requires Err?
    {
      Err(failure)
    }
    function Extract(): T
      requires Ok?
    {
      value
    }
  }

  datatype Option<T> = None | Some(value: T)
}
