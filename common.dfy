/** Values shared by every part of the model: optional values, the outcome of an
    operation that may throw, and the kinds of exception the services throw. */
module Common {

  /** Instants are whole numbers; the current instant is always passed in. */
  type Time = int

  /** A Java reference that may be null, or an Optional. */
  datatype Option<T> = None | Some(value: T) {
    function GetOr(default: T): T {
      match this
      case Some(v) => v
      case None => default
    }
  }

  /** The exceptions the services throw, by the class (or HTTP status) the caller sees. */
  datatype Error =
    | NotFound          // NotFoundException
    | IllegalArgument   // IllegalArgumentException
    | IllegalState      // IllegalStateException
    | Validation        // jakarta ValidationException
    | Conflict          // ResponseStatusException with CONFLICT
    | BadRequest        // ResponseStatusException with BAD_REQUEST
    | NullPointer       // NullPointerException that escapes
    | Arithmetic        // ArithmeticException (integer division by zero)

  /** Either the returned value or the exception thrown. */
  datatype Result<T> = Ok(value: T) | Err(error: Error)

  /** Java's `int` division (Dafny's `/` is Euclidean). */
  function JavaDiv(a: int, b: int): int
    requires b != 0
  {
    if b > 0 then
      if a >= 0 then a / b else -((-a) / b)
    else
      if a >= 0 then -(a / (-b)) else (-a) / (-b)
  }

  /** Java's division truncates toward zero: the remainder has the sign of
      the dividend and is smaller than the divisor in size. */
  lemma JavaDivTruncates(a: int, b: int)
    requires b != 0
    ensures a >= 0 && b > 0 ==> 0 <= a - JavaDiv(a, b) * b < b
    ensures a < 0 && b > 0 ==> -b < a - JavaDiv(a, b) * b <= 0
    ensures a >= 0 && b < 0 ==> 0 <= a - JavaDiv(a, b) * b < -b
    ensures a < 0 && b < 0 ==> b < a - JavaDiv(a, b) * b <= 0
  {
  }
}
