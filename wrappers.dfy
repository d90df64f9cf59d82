// Optional values, exceptions and fallible results shared by every module.
module Wrappers {

  datatype Option<T> = None | Some(value: T)

  /** The exceptions the modelled code throws or lets escape.  Only the
      messages royale itself builds are kept; a library exception is
      identified by its kind. */
  datatype Exception =
    | RuntimeError(what: string)   // std::runtime_error raised by royale
    | JsonTypeError                // nlohmann::json: a value of the wrong JSON kind
    | JsonOutOfRange               // nlohmann::json: a missing array element
    | OutOfRange                   // std::map::at / std::vector::at on a missing entry
    | BadGet                       // boost::get on the wrong alternative of a variant
    | IndexOutOfBounds             // Armadillo's checked element access
    | ProcessError                 // boost::process could not start the child
    | ParseError                   // nlohmann::json::parse rejected the text

  datatype Result<T> = Ok(value: T) | Err(error: Exception)
  {
    predicate IsFailure() { Err? }
    function PropagateFailure<U>(): Result<U> requires Err? { Err(error) }
    function Extract(): T requires Ok? { value }
  }
}
