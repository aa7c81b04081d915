/** Errors of the front end and the diagnostics the parser reports. */
module Errors {

  /** Where a diagnostic says the problem is: at the end of input, or at a lexeme. */
  datatype Location = AtEnd | AtLexeme(lexeme: string)

  /** A diagnostic message, kept as its parts: the line, the location and the
      description that the message text is formatted from. */
  datatype Diagnostic = Diagnostic(line: nat, location: Location, description: string)

  /** The error variants the scanner and the parser raise. */
  datatype Error =
    | UnexpectedCharacter(line: nat)
    | ParseError(diagnostic: Diagnostic)

  datatype Result<+T> = Ok(value: T) | Err(error: Error) {

    predicate IsFailure() { Err? }

    function PropagateFailure<U>(): Result<U>
      requires Err?
    {
      Err(error)
    }

    function Extract(): T
      requires Ok?
    {
      value
    }
  }
}
