/** Parse errors and the append-only collection they are logged in. */
module Errors {
  import opened Wrappers

  /** A parse error: its message and the position it was recorded at. */
  datatype ParseError = ParseError(message: string, position: int)

  /** The collection every stream of one parse appends its errors to. */
  class ErrorLog {
    var items: seq<ParseError>

    constructor ()
      ensures items == []
    {
      items := [];
    }

    /** The number of errors added so far. */
    function Count(): nat
      reads this
    {
      |items|
    }

    /** Iteration: the errors in the order they were added. */
    function Iterate(): seq<ParseError>
      reads this
    {
      items
    }

    /** Appends one error; the earlier ones keep their places. */
    method Add(e: ParseError)
      modifies this
      ensures items == old(items) + [e]
      ensures Count() == old(Count()) + 1
      ensures Iterate()[..old(Count())] == old(Iterate()) && Iterate()[old(Count())] == e
    {
      items := items + [e];
    }

    /** The error at a zero-based index, or the out-of-range failure. */
    method Get(index: int) returns (r: Result<ParseError, string>)
      ensures 0 <= index < Count() ==> r == Success(Iterate()[index])
      ensures !(0 <= index < Count()) ==> r == Failure("Index out of range.")
    {
      if index < 0 || index >= |items| {
        return Failure("Index out of range.");
      }
      return Success(items[index]);
    }
  }
}
