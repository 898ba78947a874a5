/** Failure-compatible wrappers shared by every module of the model.

  The Python and C++ code report errors by raising or throwing; the model
  returns `Err(kind)` instead, naming the exception class the source uses.
 */
module Wrappers {

  /** The exception classes the modelled code raises or throws. */
  datatype Exception =
    | RuntimeError          // Python RuntimeError, std::runtime_error
    | TypeError             // Python TypeError
    | ValueError            // Python ValueError
    | KeyError              // Python KeyError
    | AttributeError        // Python AttributeError
    | IndexError            // Python IndexError
    | StopIteration         // Python StopIteration
    | NotImplementedError   // Python NotImplementedError
    | AssertionError        // Python assert
    | LogicError            // std::logic_error
    | OutOfRange            // std::out_of_range
    | InvalidArgument       // std::invalid_argument
    | PolyError             // pex::poly::PolyError
    | PexError              // pex::PexError
    | MissingValue          // the REQUIRE_HAS_VALUE check on an empty pointer or optional

  datatype Option<+T> = None | Some(value: T) {

    predicate IsFailure() {
      None?
    }

    function PropagateFailure<U>(): Option<U>
      requires None?
    {
      None
    }

    function Extract(): T
      requires Some?
    {
      value
    }

    function GetOr(default: T): T {
      match this
      case Some(v) => v
      case None => default
    }
  }

  datatype Result<+T> = Ok(value: T) | Err(error: Exception) {

    predicate IsFailure() {
      Err?
    }

    function PropagateFailure<U>(): Result<U>
      requires Err?
    {
      Err(error)
    }

    function Extract(): T
      requires Ok?
    {
      value
    }
  }
}
