/** The Python exceptions the modelled code can raise, and the wrappers that carry them. */
module Errors {

  /** The plain Python exceptions raised by the modelled code; the source defines none of its own. */
  datatype Error =
    | KeyError(key: string)           // dict lookup of a missing key
    | IndexError                      // list or numpy index out of range
    | ValueError                      // str.rindex miss, shape mismatch, reshape of an empty array, min of an empty array
    | UnboundLocalError(name: string) // a local read before any branch assigned it
    | AttributeError                  // attribute lookup on None
    | TypeError                       // the same keyword argument passed twice
    | QhullError                      // scipy's Delaunay on a degenerate point set
    | AxisError                       // numpy reduction along an axis the array lacks

  datatype Option<+T> = None | Some(value: T) {
    function GetOr(default: T): T {
      match this
      case Some(v) => v
      case None => default
    }
  }

  /** The outcome of a call with no side effects: a value, or the exception it raised. */
  datatype Result<+T> = Ok(value: T) | Err(error: Error) {
    predicate IsFailure() {
      Err?
    }

    function PropagateFailure<U>(): Result<U>
      requires Err?
    {
      Err(error)
    }

    function Extract(): T
      requires Ok?
    {
      value
    }
  }

  /** The outcome of a method that mutates its object: the object's state when the call returned or
      raised, and the exception if one was raised. Python does not roll back the assignments a method
      made before it raised. */
  datatype Partial<+S> = Partial(state: S, error: Option<Error>)
}
