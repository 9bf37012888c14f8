/** PHP's nullable values: `null`, or a present value. */
module Wrappers {

  datatype Nullable<+T> = Null | Some(value: T)
}

/**
 * The exceptions the library throws, one constructor per message, each of
 * one of the three exception classes of the argument engine (plus the
 * registry's command-not-found exception).
 */
module Errors {

  datatype ErrorKind = InvalidArgument | Logic | Runtime | CommandNotFound

  datatype Error =
    // argument construction
    | EmptyName
    | NameWithWhitespace(name: string)
    | InvalidMode(mode: int)
    | InvalidShortcut(shortcut: string)
    | RequiredWithDefault
    | MultipleDefaults
    | RequiredAndOptional
    | ComplexWithoutValue
    | OptionalDefaultMismatch
    // definition building
    | DuplicateParameter(name: string)
    | ParameterAfterComplex
    | RequiredAfterOptional
    | DuplicateOption(name: string)
    | DuplicateShortcut(shortcut: string)
    // user input
    | TooFewParameters(required: int, given: int)
    | MissingOptionValue(name: string)
    | EmptyShortcut
    // registry and output
    | UnknownCommand(name: string)
    | InvalidColor(color: string)
    | InvalidStyleOption(option: string)
    | InvalidOutputMode(mode: int)
  {
    function Kind(): ErrorKind {
      match this
      case EmptyName | NameWithWhitespace(_) | InvalidMode(_) | InvalidShortcut(_) => InvalidArgument
      case InvalidColor(_) | InvalidStyleOption(_) | InvalidOutputMode(_) => InvalidArgument
      case TooFewParameters(_, _) | MissingOptionValue(_) | EmptyShortcut => Runtime
      case UnknownCommand(_) => CommandNotFound
      case _ => Logic
    }
  }

  /** A value, or the exception the operation throws. */
  datatype Result<+T> = Ok(value: T) | Err(error: Error) {

    predicate IsFailure() {
      Err?
    }

    function PropagateFailure<U>(): Result<U>
      requires Err?
    {
      Err(error)
    }

    function Extract(): T
      requires Ok?
    {
      value
    }
  }
}
