/**
  Values shared by the form and session models: optional values, typed
  results for the early-return validations, and the contents of a numeric
  input field.
 */
module Common {

  /** A value that may be absent (JavaScript `null`/`undefined`). */
  datatype Option<+T> = None | Some(value: T) {
    predicate IsFailure() { None? }
    function PropagateFailure<U>(): Option<U> requires None? { None }
    function Extract(): T requires Some? { value }
  }

  /** The outcome of a handler that either builds a request or reports one error. */
  datatype Result<+T, +E> = Ok(value: T) | Err(error: E)

  /** Identifiers of users and trips, as the API numbers them. */
  type UserId = int
  type TripId = int

  /**
    The value of an `<input type="number">`. The browser keeps such a field
    either empty ("") or holding a valid number, so `parseFloat` of it is
    either NaN (for "") or exactly that number; amounts are idealised as
    exact reals.
   */
  datatype NumberInput = Empty | Number(value: real)

  /** `parseFloat(text) || 0`: an empty field (NaN) counts as zero. */
  function ParseOrZero(n: NumberInput): (r: real)
    ensures n.Empty? ==> r == 0.0
    ensures n.Number? ==> r == n.value
  {
    match n
    case Empty => 0.0
    case Number(v) => v
  }

  function Abs(x: real): (r: real)
    ensures r >= 0.0 && (r == x || r == -x)
  {
    if x < 0.0 then -x else x
  }
}
