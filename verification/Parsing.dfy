/** The result type of the text parsers. */
module Parsing {

  /** What a text parser does: it succeeds, or throws ParseException with the offending position. */
  datatype Parsed<+T> = Success(value: T) | ParseError(pos: nat, message: string) {
    predicate IsFailure() { ParseError? }

    function PropagateFailure<U>(): Parsed<U>
      requires IsFailure()
    {
      ParseError(pos, message)
    }

    function Extract(): T
      requires Success?
    {
      value
    }
  }
}
