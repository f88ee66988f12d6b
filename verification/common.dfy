/** Shared option and outcome types used across the model. */
module Common {
  /** An optional value (a nullable field, a lookup that may miss). */
  datatype Option<T> = None | Some(value: T)
  {
    predicate IsSome() { this.Some? }
    function GetOr(default: T): T { if this.Some? then value else default }
  }

  /** A scalar field of a loosely typed JSON object. */
  datatype Scalar = Str(s: string) | Num(n: int) | Bool(b: bool) | Null

  /** A flat JSON object, keyed by field name (key order is not kept). */
  type Record = map<string, Scalar>

  /** The outcome of an operation that either yields a value or raises an error with a message. */
  datatype Result<T> = Ok(value: T) | Err(message: string)
  {
    predicate IsOk() { this.Ok? }
  }

  /** JavaScript's `x || fallback` on a string that may be absent: an absent or empty string gives the fallback. */
  function OrElse(x: Option<string>, fallback: string): (r: string)
    ensures r == fallback || (x == Some(r) && r != "")
    ensures x.Some? && x.value != "" ==> r == x.value
  {
    if x.Some? && x.value != "" then x.value else fallback
  }
}
