/** The ways a decode call can end early. Every kind stands for the Python
    exception the scripts raise at that point; none of them is caught, so each
    one aborts the whole call. */
module Outcome {

  datatype Error =
    | Truncated          // struct.error: fewer bytes left than the format needs
    | BadFormat          // struct.error: a negative repeat count in a format string, or a value out of range for its field
    | AssertionFailed    // a failed `assert` statement
    | IndexOutOfRange    // IndexError on a Python list or an image coordinate
    | NoneFormatted      // TypeError: `%.4f` applied to None
    | MathDomain         // ValueError: math.log2 of a non-positive number
    | BadImageSize       // ValueError: an image with a negative side
    | DivisionByZero     // ZeroDivisionError
    | InvalidUtf8        // UnicodeDecodeError from bytes.decode()
    | OutOfBuffer        // struct.error: pack_into past the end of the target buffer
    | MixedTypes         // TypeError: a str path joined with an undecoded bytes name
    | NoneJoined         // TypeError: str.join over a list holding None

  datatype Option<+T> = None | Some(value: T)

  /** Success with a value, or the error that aborted the call. */
  datatype Result<+T> = Ok(value: T) | Err(error: Error) {

    predicate IsFailure() {
      Err?
    }

    function PropagateFailure<U>(): Result<U>
      requires Err?
    {
      Err(error)
    }

    function Extract(): T
      requires Ok?
    {
      value
    }
  }
}
