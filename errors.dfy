/** The ways a decode can fail.

    `Format` is the checked FileFormatException with its message and `EOF`
    the EOFException of a short read.  The other constructors stand for the
    unchecked Java exceptions that some code paths raise and do not convert:
    an array index out of range, an array allocated with a negative length,
    an argument check of a library constructor, and a null dereference.
    `FileNotFound` is the IOException of opening a game file that is not
    there. */
module Errors {

  datatype Error =
    | Format(reason: string)
    | EOF
    | ArrayIndex
    | NegativeArraySize
    | IllegalArgument(message: string)
    | NullPointer
    | FileNotFound(file: string)

  /** A decoder outcome: a value, or the exception that aborted the decode. */
  datatype Result<+T> = Ok(value: T) | Err(error: Error) {

    predicate IsFailure() {
      Err?
    }

    function PropagateFailure<U>(): Result<U>
      requires Err?
    {
      Err(error)
    }

    function Extract(): T
      requires Ok?
    {
      value
    }
  }

  /** The handler `catch (ArrayIndexOutOfBoundsException e) { throw new
      FileFormatException("Invalid array index", e); }` wrapped around a
      decode: an index fault leaves it as a FormatError, anything else passes. */
  function CatchArrayIndex<T>(r: Result<T>): (c: Result<T>)
    ensures c.Ok? <==> r.Ok?
    ensures r.Ok? ==> c == r
    ensures r.Err? ==> c.error != ArrayIndex
    ensures r.Err? && r.error != ArrayIndex ==> c == r
  {
    if r.Err? && r.error == ArrayIndex then Err(Format("Invalid array index")) else r
  }
}
