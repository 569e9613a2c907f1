/** Values of the ECMAScript runtime that the planet generator script touches:
    optional properties (`undefined` or a string), thrown values, and the
    normal/throw completion of a call that may raise. */
module Js {

  /** A property that may be absent (`undefined`, `null`) or hold a value. */
  datatype Option<+T> = None | Some(value: T)

  /** A string-valued property in boolean context: absent and `''` are falsy,
      every other string is truthy. */
  predicate Truthy(p: Option<string>) {
    p.Some? && p.value != []
  }

  /** `p || d` for a string-valued property. */
  function Or(p: Option<string>, default: string): string {
    if Truthy(p) then p.value else default
  }

  /** A thrown value: its `message` property (absent for a thrown non-Error)
      and its string conversion `String(err)`. */
  datatype Thrown = Thrown(message: Option<string>, asText: string) {

    /** `err?.message || err` concatenated to a string: the message when it is
        truthy, otherwise the thrown value's string form. */
    function Shown(): string {
      Or(message, asText)
    }
  }

  /** `new Error(msg)` as thrown by the script itself. */
  function ErrorOf(msg: string): (e: Thrown)
    ensures msg != [] ==> e.Shown() == msg
  {
    Thrown(Some(msg), if msg == [] then "Error" else "Error: " + msg)
  }

  /** The smaller of two integers; `slice` clamps its end to the length
      with it. */
  function Min(a: int, b: int): int {
    if a <= b then a else b
  }

  /** Either the value a call returned or the value it threw. */
  datatype Completion<+T> = Normal(value: T) | Throw(error: Thrown)
}
