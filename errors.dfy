/** The exceptions the library raises, as values. */
module Errors {

  /** One constructor per exception kind the modelled code can raise. */
  datatype Error =
    | NullPointer            // NullPointerException
    | IndexOutOfBounds       // ArrayIndexOutOfBoundsException / Python IndexError
    | IllegalArgument        // IllegalArgumentException (reflective invoke, convert)
    | ClassCast              // ClassCastException
    | Instantiation          // InstantiationException of Class.newInstance
    | Conversion             // RuntimeException raised while converting text to a number
    | IncompatibleClass      // IncompatibleClassException
    | IncompatibleMethod     // IncompatibleMethodException
    | InvalidAccessor        // InvalidAccessorException
    | TypeMismatch           // comparator given values of two different classes
    | NoFeatures             // RuntimeException: no features selected to analyse

  /** A possibly absent value; None stands for Java's null. */
  datatype Option<+T> = None | Some(value: T)

  /** A computed value or the exception that aborted the computation. */
  datatype Result<+T> = Ok(value: T) | Err(error: Error) {
    predicate IsFailure() { Err? }
    function PropagateFailure<U>(): Result<U>
      requires Err?
    {
      Err(error)
    }
    function Extract(): T
      requires Ok?
    {
      value
    }
  }

  /** The outcome of a void operation. */
  datatype Outcome = Pass | Fail(error: Error)
}
