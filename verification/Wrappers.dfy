/** Result types shared by every module. */
module Wrappers {

  datatype Option<+T> = None | Some(value: T)

  /** A value or an error; usable with `:-`. */
  datatype Result<+T, +E> = Ok(value: T) | Err(error: E) {
    predicate IsFailure() {
      Err?
    }

    function PropagateFailure<U>(): Result<U, E>
      requires Err?
    {
      Err(error)
    }

    function Extract(): T
      requires Ok?
    {
      value
    }
  }

  /** The outcome of a check that carries no value. */
  datatype Outcome<+E> = Pass | Fail(error: E) {
    predicate IsFailure() {
      Fail?
    }

    function PropagateFailure<U>(): Result<U, E>
      requires Fail?
    {
      Err(error)
    }
  }

  function Need<E>(condition: bool, error: E): Outcome<E> {
    if condition then Pass else Fail(error)
  }

  /** Unsigned 64-bit integers. Every addition in the model is checked, as in the source. */
  type U64 = n: nat | n < U64_LIMIT witness 0

  type Byte = n: nat | n < 256 witness 0

  const U64_LIMIT: nat := 0x1_0000_0000_0000_0000
}
