/**
 * How a compile can end other than with a result: the parse error that
 * `TryParse` catches (CriteriaParseException.cs), or a runtime exception
 * it lets through.
 */
module Faults {

  import opened Wrappers

  /** The operand slot an unparsed token was about to fill. */
  datatype ArgumentPosition = Left | Right | Right1

  /** The two messages the compiler raises as `CriteriaParseException`. */
  datatype ParseError =
    | MissingOperation
    | UnresolvedOperand(value: string, operatorFilter: string, position: ArgumentPosition)

  /**
   * `ParseFailure` is a `CriteriaParseException`; `NullReference` and
   * `ArgumentOutOfRange` are the runtime exceptions the code raises on
   * malformed input and does not catch.
   */
  datatype Fault =
    | ParseFailure(error: ParseError)
    | NullReference
    | ArgumentOutOfRange

  type Outcome<T> = Result<T, Fault>
}
