/** Optional values and results shared by every module of the model. */
module Wrappers {

  /** A value that may be absent: the source's `null`/`None`, and `NaN` where a
      statistic is undefined. */
  datatype Option<+T> = None | Some(value: T)

  /** The outcome of an operation that the source lets throw. */
  datatype Result<+T, +E> = Ok(value: T) | Err(error: E)

  /** A check that returns normally or throws. */
  datatype Outcome<+E> = Pass | Fail(error: E)
}

/** The error taxonomy of the dice engine, and the two implementations of it. */
module Errors {

  /** The engine exists twice: dice-engine.js and its Python original code.py.
      They differ only where the model takes a `Dialect`. */
  datatype Dialect = JavaScript | Python

  datatype Error =
    | InvalidDieSides                        // a die with fewer than one side
    | InvalidDiceSpec                        // NdM with N < 0 or M < 1
    | IllegalCharacter                       // a character outside the allow-list
    | UnknownIdentifiers(names: seq<string>) // identifiers other than `d` and `roll`
    | MalformedExpression(detail: string)    // the host parser rejects the text
    | EmptyExpression                        // blank input to validation
    | EvaluationError(detail: string)        // a fault raised by the host evaluator

  /** The text each implementation puts in the exception it raises. */
  function Message(dialect: Dialect, e: Error): string
  {
    match e
    case InvalidDieSides => "Число граней должно быть >= 1"
    case InvalidDiceSpec =>
      if dialect == JavaScript then "Некорректная запись NdM (n >= 0, m >= 1)"
      else "Некорректная запись NdM (n>=0, m>=1)"
    case IllegalCharacter => "Недопустимые символы в выражении"
    case UnknownIdentifiers(names) =>
      if dialect == JavaScript then "Недопустимый идентификатор: " + JoinComma(names)
      else "Недопустимые идентификаторы: " + JoinComma(names)
    case MalformedExpression(detail) => detail
    case EmptyExpression => "Введите выражение"
    case EvaluationError(detail) =>
      if dialect == JavaScript then "Ошибка вычисления: " + detail else detail
  }

  /** Names joined by ", ", as Python's `", ".join(...)` does. */
  function JoinComma(names: seq<string>): string
  {
    if names == [] then ""
    else if |names| == 1 then names[0]
    else names[0] + ", " + JoinComma(names[1..])
  }
}
