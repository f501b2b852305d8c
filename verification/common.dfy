/** Small value types shared by the service and page models. */
module Common {

  /** A value that may be missing: `null`/`undefined` in the source. */
  datatype Option<T> = None | Some(value: T)

  /** The outcome of an operation that can throw; `Err` carries the error's message. */
  datatype Result<T> = Ok(value: T) | Err(message: string)

  /** The character `c` occurs nowhere in `s`. */
  predicate NotIn(c: char, s: string)
  {
    forall i :: 0 <= i < |s| ==> s[i] != c
  }
}
