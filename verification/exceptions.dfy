/**
 * The exceptions the modelled C# code can throw, and the `Result` type that
 * carries either the value a member computes or the exception that ended it.
 */
module Exceptions {

  /** The `DmlSyntaxError`s raised by the parsers, one constructor per message. */
  datatype SyntaxError =
    | UnexpectedToken(expected: string)
    | MismatchedParentheses
    | InvalidTokenForContext(token: string, context: string)
    | BadRangeStatement
    | MismatchedNamespaceDelimiters
    | InvalidName(name: string)
    | GlobalWithoutName
    | InstanceWithoutName
    | MismatchedCallBrackets

  /** The .NET exception classes the modelled code throws. */
  datatype Exception =
    | NullReference
    | IndexOutOfRange
    | ArgumentNull
    | KeyNotFound
    | InvalidCast
    | InvalidOperation
    | Format
    | NotImplemented
    | ParserError(message: string)
    | DmlSyntax(error: SyntaxError)
    | TimelineError

  /** `Ok(v)`: the member returned `v`; `Throw(e)`: it threw `e`. */
  datatype Result<+T> = Ok(value: T) | Throw(exception: Exception) {

    predicate IsFailure() {
      Throw?
    }

    function PropagateFailure<U>(): Result<U>
      requires Throw?
    {
      Throw(exception)
    }

    function Extract(): T
      requires Ok?
    {
      value
    }
  }

  /** A C# reference that may be null: `None` is null. */
  datatype Option<+T> = None | Some(value: T) {

    function GetOr(default: T): T {
      match this
      case Some(v) => v
      case None => default
    }
  }
}
