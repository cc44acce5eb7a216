// Outcome types shared by the whole model.

module Results {

  /** The outcome of a Buffer read: a value, or the RangeError that a
      DataView access outside the buffer throws. Supports `:-`. */
  datatype Result<T> = Ok(value: T) | RangeError
  {
    predicate IsFailure() { RangeError? }

    function PropagateFailure<U>(): Result<U>
      requires IsFailure()
    {
      RangeError
    }

    function Extract(): T
      requires !IsFailure()
    {
      value
    }
  }

  datatype Option<T> = None | Some(value: T)

  /** The Ok/Err record of the application's Result type: a value, or an
      error the caller is meant to inspect. */
  datatype Outcome<T, E> = Success(value: T) | Failure(error: E)
}
